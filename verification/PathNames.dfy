/** Path names as lists of components. */
module PathNames {
  /** skip_slash. */
  function SkipSlash(p: string): (q: string)
    ensures |q| <= |p| && (q == "" || q[0] != '/')
  {
    if p != "" && p[0] == '/' then SkipSlash(p[1..]) else p
  }

  /** The characters up to the next slash. */
  function FirstName(p: string): (n: string)
    ensures n <= p && (|n| == |p| || p[|n|] == '/') && '/' !in n
    ensures p != "" && p[0] != '/' ==> n != ""
  {
    if p == "" || p[0] == '/' then "" else [p[0]] + FirstName(p[1..])
  }

  function Components(p: string): (c: seq<string>)
    ensures forall k | 0 <= k < |c| :: c[k] != "" && '/' !in c[k]
    decreases |p|
  {
    var q := SkipSlash(p);
    if q == "" then [] else [FirstName(q)] + Components(q[|FirstName(q)|..])
  }

  lemma {:induction false} FirstNameBefore(a: string, b: string)
    ensures FirstName(a + "/" + b) == FirstName(a)
    decreases |a|
  {
    if a != "" && a[0] != '/' {
      assert (a + "/" + b)[1..] == a[1..] + "/" + b;
      FirstNameBefore(a[1..], b);
    }
  }

  lemma {:induction false} SkipBefore(a: string, b: string)
    ensures SkipSlash(a + "/" + b) == if SkipSlash(a) == "" then SkipSlash(b) else SkipSlash(a) + "/" + b
    decreases |a|
  {
    if a == "" {
      assert (a + "/" + b)[1..] == b;
    } else if a[0] == '/' {
      assert (a + "/" + b)[1..] == a[1..] + "/" + b;
      SkipBefore(a[1..], b);
    }
  }

  /** A slash separates: repeated, leading and trailing ones make no difference. */
  lemma {:induction false} SlashSeparates(a: string, b: string)
    ensures Components(a + "/" + b) == Components(a) + Components(b)
    decreases |a|
  {
    var q := SkipSlash(a);
    SkipBefore(a, b);
    if q != "" {
      FirstNameBefore(q, b);
      var n := FirstName(q);
      assert (q + "/" + b)[|n|..] == q[|n|..] + "/" + b;
      SlashSeparates(q[|n|..], b);
    } else {
      SameAfterSkip(b);
    }
  }

  lemma {:induction false} SkipTwice(p: string)
    ensures SkipSlash(SkipSlash(p)) == SkipSlash(p)
  {
  }

  lemma SameAfterSkip(p: string)
    ensures Components(SkipSlash(p)) == Components(p)
  {
    SkipTwice(p);
  }

  lemma {:induction false} FirstNameAll(n: string)
    requires '/' !in n
    ensures FirstName(n) == n
  {
    if n != "" {
      assert '/' !in n[1..];
      FirstNameAll(n[1..]);
    }
  }

  /** A name on its own is one component. */
  lemma OneComponent(n: string)
    requires n != "" && '/' !in n
    ensures Components(n) == [n]
  {
    FirstNameAll(n);
    assert n[0] in n;
    assert n[|n|..] == "";
  }
}
