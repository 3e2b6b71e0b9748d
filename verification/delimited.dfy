/**
 * `string.Split(char)` and its inverse `string.Join(char, pieces)`, as used by
 * the delimited-collection accessors.
 */
module Delimited {

  /**
   * `s.Split(delimiter)`: the pieces between delimiters, in order, empty pieces
   * kept; there is always at least one piece and no piece holds the delimiter.
   */
  function Split(s: string, delimiter: char): (pieces: seq<string>)
    ensures |pieces| >= 1
    ensures forall i :: 0 <= i < |pieces| ==> delimiter !in pieces[i]
  {
    if |s| == 0 then [""]
    else
      var rest := Split(s[1..], delimiter);
      if s[0] == delimiter then [""] + rest
      else [[s[0]] + rest[0]] + rest[1..]
  }

  /** `string.Join(delimiter, pieces)`. */
  function Join(pieces: seq<string>, delimiter: char): string {
    if |pieces| == 0 then ""
    else if |pieces| == 1 then pieces[0]
    else pieces[0] + [delimiter] + Join(pieces[1..], delimiter)
  }

  /** Joining the pieces back with the delimiter restores the original text. */
  lemma {:induction false} JoinSplit(s: string, delimiter: char)
    ensures Join(Split(s, delimiter), delimiter) == s
  {
    if |s| > 0 {
      var rest := Split(s[1..], delimiter);
      JoinSplit(s[1..], delimiter);
      if s[0] == delimiter {
        assert Split(s, delimiter)[1..] == rest;
      } else {
        var pieces := Split(s, delimiter);
        if |rest| == 1 {
          assert pieces == [[s[0]] + rest[0]];
        } else {
          assert pieces[1..] == rest[1..];
          assert Join(rest, delimiter) == rest[0] + [delimiter] + Join(rest[1..], delimiter);
        }
      }
      assert s == [s[0]] + s[1..];
    }
  }

  /** There is one piece more than there are delimiters in the text. */
  lemma {:induction false} SplitCount(s: string, delimiter: char)
    ensures |Split(s, delimiter)| == multiset(s)[delimiter] + 1
  {
    if |s| > 0 {
      SplitCount(s[1..], delimiter);
      assert s == [s[0]] + s[1..];
      assert multiset(s) == multiset{s[0]} + multiset(s[1..]);
    }
  }

  /** Text without the delimiter splits into itself alone. */
  lemma {:induction false} SplitWithoutDelimiter(a: string, delimiter: char)
    requires delimiter !in a
    ensures Split(a, delimiter) == [a]
  {
    if |a| > 0 {
      SplitWithoutDelimiter(a[1..], delimiter);
      assert a == [a[0]] + a[1..];
    }
  }

  /** A delimiter-free prefix followed by the delimiter splits off as the first piece. */
  lemma {:induction false} SplitPrefix(a: string, delimiter: char, t: string)
    requires delimiter !in a
    ensures Split(a + [delimiter] + t, delimiter) == [a] + Split(t, delimiter)
  {
    var s := a + [delimiter] + t;
    if |a| == 0 {
      assert s[1..] == t;
    } else {
      assert s[1..] == a[1..] + [delimiter] + t;
      SplitPrefix(a[1..], delimiter, t);
      assert [a[0]] + a[1..] == a;
    }
  }

  /** Splitting a join of delimiter-free pieces gives the pieces back. */
  lemma {:induction false} SplitJoin(pieces: seq<string>, delimiter: char)
    requires |pieces| >= 1
    requires forall i :: 0 <= i < |pieces| ==> delimiter !in pieces[i]
    ensures Split(Join(pieces, delimiter), delimiter) == pieces
  {
    if |pieces| == 1 {
      SplitWithoutDelimiter(pieces[0], delimiter);
    } else {
      SplitJoin(pieces[1..], delimiter);
      SplitPrefix(pieces[0], delimiter, Join(pieces[1..], delimiter));
      assert [pieces[0]] + pieces[1..] == pieces;
    }
  }
}
