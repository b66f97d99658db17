/** How the document text is assembled before parsing: every line is trimmed
    and the results are concatenated with no separator, by a left fold that
    starts from the empty string. */
module Lines {

  /** The characters `String.trim()` drops at either end: code points up to
      and including U+0020 (spaces and all ASCII controls). */
  predicate IsTrimmable(c: char) {
    c <= ' '
  }

  predicate AllTrimmable(s: string) {
    forall i | 0 <= i < |s| :: IsTrimmable(s[i])
  }

  /** The first index at or after `lo`, and below `hi`, that holds a character
      `trim` keeps; `hi` if none does. */
  function KeptFrom(s: string, lo: nat, hi: nat): (r: nat)
    requires lo <= hi <= |s|
    ensures lo <= r <= hi
    ensures forall i | lo <= i < r :: IsTrimmable(s[i])
    ensures r < hi ==> !IsTrimmable(s[r])
    decreases hi - lo
  {
    if lo == hi || !IsTrimmable(s[lo]) then lo else KeptFrom(s, lo + 1, hi)
  }

  /** One past the last index below `hi`, and at or after `lo`, that holds a
      character `trim` keeps; `lo` if none does. */
  function KeptUpTo(s: string, lo: nat, hi: nat): (r: nat)
    requires lo <= hi <= |s|
    ensures lo <= r <= hi
    ensures forall i | r <= i < hi :: IsTrimmable(s[i])
    ensures lo < r ==> !IsTrimmable(s[r - 1])
    decreases hi - lo
  {
    if lo == hi || !IsTrimmable(s[hi - 1]) then hi else KeptUpTo(s, lo, hi - 1)
  }

  /** `String.trim()`: the text between the leading and the trailing runs of
      trimmable characters. */
  function Trim(s: string): (t: string)
    ensures |t| <= |s|
    ensures t == [] || (!IsTrimmable(t[0]) && !IsTrimmable(t[|t| - 1]))
  {
    var lo := KeptFrom(s, 0, |s|);
    var hi := KeptUpTo(s, lo, |s|);
    s[lo..hi]
  }

  /** `trim` cuts `s` into a trimmable prefix, the result and a trimmable suffix. */
  lemma TrimSplits(s: string)
    ensures exists a, b :: s == a + Trim(s) + b && AllTrimmable(a) && AllTrimmable(b)
  {
    var lo := KeptFrom(s, 0, |s|);
    var hi := KeptUpTo(s, lo, |s|);
    var a, b := s[..lo], s[hi..];
    assert s == a + s[lo..hi] + b;
    assert AllTrimmable(a) by {
      forall i | 0 <= i < |a| ensures IsTrimmable(a[i]) {
        assert a[i] == s[i];
      }
    }
    assert AllTrimmable(b) by {
      forall i | 0 <= i < |b| ensures IsTrimmable(b[i]) {
        assert b[i] == s[hi + i];
      }
    }
  }

  /** Conversely, any such cut whose middle neither starts nor ends with a
      trimmable character is the one `trim` makes. */
  lemma TrimUnique(s: string, a: string, t: string, b: string)
    requires s == a + t + b
    requires AllTrimmable(a) && AllTrimmable(b)
    requires t == [] || (!IsTrimmable(t[0]) && !IsTrimmable(t[|t| - 1]))
    ensures Trim(s) == t
  {
    var lo := KeptFrom(s, 0, |s|);
    if t == [] {
      assert forall i | 0 <= i < |s| :: IsTrimmable(s[i]) by {
        forall i | 0 <= i < |s|
          ensures IsTrimmable(s[i])
        {
          if i < |a| {
            assert s[i] == a[i];
          } else {
            assert s[i] == b[i - |a|];
          }
        }
      }
      assert lo == |s|;
    } else {
      assert s[|a|] == t[0];
      assert forall i | 0 <= i < |a| :: s[i] == a[i];
      assert lo == |a|;
      var hi := KeptUpTo(s, lo, |s|);
      assert s[|a| + |t| - 1] == t[|t| - 1];
      assert forall i | |a| + |t| <= i < |s| :: s[i] == b[i - |a| - |t|];
      assert hi == |a| + |t|;
      assert s[lo..hi] == t;
    }
  }

  /** Trimming twice is trimming once. */
  lemma TrimIdempotent(s: string)
    ensures Trim(Trim(s)) == Trim(s)
  {
    var t := Trim(s);
    assert t == [] + t + [];
    TrimUnique(t, [], t, []);
  }

  /** The fold at the document reader: each line's trimmed text appended to
      what the earlier lines gave. */
  function JoinFrom(acc: string, lines: seq<string>): (r: string)
    ensures acc <= r
    decreases |lines|
  {
    if lines == [] then acc else JoinFrom(acc + Trim(lines[0]), lines[1..])
  }

  /** The document text for a sequence of lines (the fold started from ""). */
  function JoinLines(lines: seq<string>): string {
    JoinFrom("", lines)
  }

  /** The same text written as a plain concatenation of the trimmed lines. */
  function ConcatTrimmed(lines: seq<string>): string
    decreases |lines|
  {
    if lines == [] then "" else Trim(lines[0]) + ConcatTrimmed(lines[1..])
  }

  /** The fold from any accumulator appends the concatenation to it. */
  lemma {:induction false} JoinFromConcat(acc: string, lines: seq<string>)
    ensures JoinFrom(acc, lines) == acc + ConcatTrimmed(lines)
    decreases |lines|
  {
    if lines != [] {
      JoinFromConcat(acc + Trim(lines[0]), lines[1..]);
      assert acc + Trim(lines[0]) + ConcatTrimmed(lines[1..]) == acc + (Trim(lines[0]) + ConcatTrimmed(lines[1..]));
    }
  }

  /** The document text is the trimmed lines in order, nothing between them. */
  lemma JoinLinesConcat(lines: seq<string>)
    ensures JoinLines(lines) == ConcatTrimmed(lines)
  {
    JoinFromConcat("", lines);
    assert "" + ConcatTrimmed(lines) == ConcatTrimmed(lines);
  }

  lemma {:induction false} ConcatTrimmedAppend(xs: seq<string>, ys: seq<string>)
    ensures ConcatTrimmed(xs + ys) == ConcatTrimmed(xs) + ConcatTrimmed(ys)
    decreases |xs|
  {
    if xs != [] {
      var zs := xs + ys;
      assert zs[0] == xs[0];
      assert zs[1..] == xs[1..] + ys;
      ConcatTrimmedAppend(xs[1..], ys);
      var a, b, c := Trim(xs[0]), ConcatTrimmed(xs[1..]), ConcatTrimmed(ys);
      assert ConcatTrimmed(zs) == a + (b + c);
      assert a + (b + c) == (a + b) + c;
    } else {
      assert xs + ys == ys;
    }
  }

  /** Reading two blocks of lines one after the other gives the two texts
      joined: the fold has no separator and no state beyond the text. */
  lemma JoinLinesAppend(xs: seq<string>, ys: seq<string>)
    ensures JoinLines(xs + ys) == JoinLines(xs) + JoinLines(ys)
  {
    JoinLinesConcat(xs + ys);
    JoinLinesConcat(xs);
    JoinLinesConcat(ys);
    ConcatTrimmedAppend(xs, ys);
  }

  /** Lines holding only trimmable characters contribute nothing: a file of
      blank lines becomes the empty document. */
  lemma BlankLinesJoinEmpty(lines: seq<string>)
    requires forall i | 0 <= i < |lines| :: AllTrimmable(lines[i])
    ensures JoinLines(lines) == ""
  {
    JoinLinesConcat(lines);
    BlankConcatEmpty(lines);
  }

  lemma {:induction false} BlankConcatEmpty(lines: seq<string>)
    requires forall i | 0 <= i < |lines| :: AllTrimmable(lines[i])
    ensures ConcatTrimmed(lines) == ""
    decreases |lines|
  {
    if lines != [] {
      assert lines[0] == [] + [] + lines[0];
      TrimUnique(lines[0], [], [], lines[0]);
      BlankConcatEmpty(lines[1..]);
    }
  }
}
