/**
 * The two built-in string operations the category editor relies on:
 * `String.prototype.split` with a one-character separator and
 * `Array.prototype.join` with the same separator.
 */
module StringOps {

  /** The pieces of `s` between occurrences of `sep`, as `s.split(sep)` returns them.
      The empty string splits into one empty piece, and a trailing separator yields
      a trailing empty piece. */
  function Split(s: string, sep: char): (r: seq<string>)
    ensures |r| >= 1
    ensures forall i :: 0 <= i < |r| ==> sep !in r[i]
    decreases |s|
  {
    if |s| == 0 then [""]
    else
      var rest := Split(s[1..], sep);
      if s[0] == sep then [""] + rest
      else [[s[0]] + rest[0]] + rest[1..]
  }

  /** The pieces of `xs` glued together with `sep` between neighbours, as
      `xs.join(sep)`: it starts with the first piece, followed by the separator
      when there is a second. `JoinSplit` and `SplitJoin` relate it to `Split`. */
  function Join(xs: seq<string>, sep: char): (r: string)
    ensures |xs| == 0 ==> r == ""
    ensures |xs| >= 1 ==> xs[0] <= r
    ensures |xs| >= 2 ==> |xs[0]| < |r| && r[|xs[0]|] == sep
  {
    if |xs| == 0 then ""
    else if |xs| == 1 then xs[0]
    else xs[0] + [sep] + Join(xs[1..], sep)
  }

  /** Joining the pieces of any string gives the string back. */
  lemma {:induction false} JoinSplit(s: string, sep: char)
    ensures Join(Split(s, sep), sep) == s
    decreases |s|
  {
    if |s| > 0 {
      var rest := Split(s[1..], sep);
      JoinSplit(s[1..], sep);
      if s[0] == sep {
        assert Split(s, sep) == [""] + rest;
        assert s == [sep] + s[1..];
      } else {
        var r := Split(s, sep);
        assert r == [[s[0]] + rest[0]] + rest[1..];
        if |rest| == 1 {
          assert Join(rest, sep) == rest[0];
        } else {
          assert Join(rest, sep) == rest[0] + [sep] + Join(rest[1..], sep);
          assert r[1..] == rest[1..];
        }
        assert s == [s[0]] + s[1..];
      }
    }
  }

  /** Splitting a string that starts with a separator-free piece `a`. */
  lemma {:induction false} SplitAfterPiece(a: string, tail: string, sep: char)
    requires sep !in a
    ensures Split(a + tail, sep) == [a + Split(tail, sep)[0]] + Split(tail, sep)[1..]
    decreases |a|
  {
    if |a| > 0 {
      SplitAfterPiece(a[1..], tail, sep);
      assert (a + tail)[1..] == a[1..] + tail;
      assert (a + tail)[0] == a[0];
      assert [a[0]] + (a[1..] + Split(tail, sep)[0]) == a + Split(tail, sep)[0];
    } else {
      var r := Split(tail, sep);
      assert a + tail == tail;
      assert a + r[0] == r[0];
      assert [r[0]] + r[1..] == r;
    }
  }

  /** Splitting the joined pieces gives them back when there is at least one piece
      and no piece holds the separator. */
  lemma {:induction false} SplitJoin(xs: seq<string>, sep: char)
    requires |xs| >= 1
    requires forall i :: 0 <= i < |xs| ==> sep !in xs[i]
    ensures Split(Join(xs, sep), sep) == xs
    decreases |xs|
  {
    if |xs| == 1 {
      SplitAfterPiece(xs[0], "", sep);
      assert xs[0] + "" == xs[0];
    } else {
      var tail := [sep] + Join(xs[1..], sep);
      assert Join(xs, sep) == xs[0] + tail;
      SplitAfterPiece(xs[0], tail, sep);
      SplitJoin(xs[1..], sep);
      assert tail[1..] == Join(xs[1..], sep);
      assert Split(tail, sep) == [""] + xs[1..];
      assert xs[0] + "" == xs[0];
    }
  }

  /** Joining no pieces and splitting again gives one empty piece, not none. */
  lemma JoinEmptySplitsToBlank(sep: char)
    ensures Split(Join([], sep), sep) == [""]
  {
  }

  /** A piece that holds the separator is cut in two by the round trip. */
  lemma SplitCutsPieceWithSeparator()
    ensures Split(Join(["a,b"], ','), ',') == ["a", "b"]
  {
    assert Join(["a,b"], ',') == "a,b";
    assert Split("", ',') == [""];
    assert "b"[1..] == "";
    assert "b"[0] == 'b' && ['b'] + "" == "b";
    assert Split("b", ',') == ["b"];
    assert ",b"[1..] == "b";
    assert Split(",b", ',') == ["", "b"];
    assert "a,b"[1..] == ",b" && "a,b"[0] == 'a';
    assert ['a'] + "" == "a";
  }
}
