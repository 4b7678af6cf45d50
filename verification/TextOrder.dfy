/** Lexicographic order on texts, by character code. */
module TextOrder {
  predicate AtMost(s: string, t: string) {
    if s == "" then true
    else if t == "" then false
    else if s[0] == t[0] then AtMost(s[1..], t[1..])
    else s[0] < t[0]
  }

  lemma {:induction false} Total(s: string, t: string)
    ensures AtMost(s, t) || AtMost(t, s)
  {
    if s != "" && t != "" && s[0] == t[0] {
      Total(s[1..], t[1..]);
    }
  }

  lemma {:induction false} Antisymmetric(s: string, t: string)
    requires AtMost(s, t) && AtMost(t, s)
    ensures s == t
  {
    if s != "" {
      Antisymmetric(s[1..], t[1..]);
      assert s == [s[0]] + s[1..] && t == [t[0]] + t[1..];
    }
  }

  lemma {:induction false} Transitive(s: string, t: string, u: string)
    requires AtMost(s, t) && AtMost(t, u)
    ensures AtMost(s, u)
  {
    if s != "" && s[0] == t[0] && t[0] == u[0] {
      Transitive(s[1..], t[1..], u[1..]);
    }
  }

  /** The smallest of some texts. */
  ghost predicate IsLeast(t: string, all: seq<string>) {
    t in all && forall u :: u in all ==> AtMost(t, u)
  }

  method Least(all: seq<string>) returns (t: string)
    requires all != []
    ensures IsLeast(t, all)
  {
    t := all[0];
    Total(t, t);
    for k := 1 to |all|
      invariant IsLeast(t, all[..k])
    {
      assert all[..k + 1] == all[..k] + [all[k]];
      Total(t, all[k]);
      Total(all[k], all[k]);
      if !AtMost(t, all[k]) {
        forall u | u in all[..k]
          ensures AtMost(all[k], u)
        {
          Transitive(all[k], t, u);
        }
        t := all[k];
      }
    }
    assert all[..|all|] == all;
  }

  /** The first place where the texts differ decides, and a text comes before its continuations. */
  lemma {:induction false} FirstDifferenceDecides(s: string, t: string, k: nat)
    requires k <= |s| && k <= |t| && s[..k] == t[..k]
    requires k < |s| && k < |t| ==> s[k] != t[k]
    requires k < |s| || k < |t|
    ensures AtMost(s, t) <==> k == |s| || (k < |t| && s[k] < t[k])
  {
    if k > 0 {
      assert s[0] == s[..k][0] == t[..k][0] == t[0];
      assert s[1..][..k - 1] == s[..k][1..] == t[..k][1..] == t[1..][..k - 1];
      FirstDifferenceDecides(s[1..], t[1..], k - 1);
    }
  }
}
