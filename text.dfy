/** Small facts about strings shared by the path and date formats. */
module Text {

  import opened Wrappers

  /** The longest suffix of `s` in which the character `c` does not occur. */
  function AfterLast(c: char, s: string): (r: string)
    ensures |r| <= |s|
    decreases |s|
  {
    if s == [] || s[|s| - 1] == c then []
    else AfterLast(c, s[..|s| - 1]) + [s[|s| - 1]]
  }

  /** The part after the last `c` is a suffix free of `c`, preceded by `c` unless it is all of `s`. */
  lemma {:induction false} AfterLastIsSuffix(c: char, s: string)
    ensures AfterLast(c, s) == s[|s| - |AfterLast(c, s)|..]
    ensures c !in AfterLast(c, s)
    ensures |AfterLast(c, s)| < |s| ==> s[|s| - |AfterLast(c, s)| - 1] == c
    decreases |s|
  {
    if s != [] && s[|s| - 1] != c {
      var s' := s[..|s| - 1];
      AfterLastIsSuffix(c, s');
      var r' := AfterLast(c, s');
      assert s[|s| - |r'| - 1..] == s'[|s'| - |r'|..] + [s[|s| - 1]];
      if |r'| < |s'| {
        assert s[|s| - |r'| - 2] == s'[|s'| - |r'| - 1];
      }
    }
  }

  /** Whatever stands before the last `c`, the part after it is what `AfterLast` returns. */
  lemma {:induction false} AfterLastOfJoin(c: char, p: string, q: string)
    requires c !in q
    ensures AfterLast(c, p + [c] + q) == q
    decreases |q|
  {
    var s := p + [c] + q;
    if q == [] {
      assert s[|s| - 1] == c;
    } else {
      var q' := q[..|q| - 1];
      assert s[..|s| - 1] == p + [c] + q';
      AfterLastOfJoin(c, p, q');
      assert q == q' + [q[|q| - 1]];
    }
  }

  /** Splits `s` at its last `c` into the part before and the part after; None when `c` does not occur. */
  function SplitLast(c: char, s: string): Option<(string, string)> {
    var after := AfterLast(c, s);
    if |after| < |s| then Some((s[..|s| - |after| - 1], after)) else None
  }

  /** Splitting a join at its last separator gives back both sides. */
  lemma SplitLastOfJoin(c: char, p: string, q: string)
    requires c !in q
    ensures SplitLast(c, p + [c] + q) == Some((p, q))
  {
    var s := p + [c] + q;
    AfterLastOfJoin(c, p, q);
    assert s[..|s| - |q| - 1] == p;
  }

}
