/** The few JavaScript string and array primitives the gates rely on,
    with their ECMAScript behaviour written out. */
module JsString {
  import opened Common

  /** `s.split(sep)` for a one-character separator: every occurrence of
      `sep` ends a piece, so the result always has one more piece than
      `s` has separators, and the empty string splits into `[""]`. */
  function Split(s: string, sep: char): (pieces: seq<string>)
    ensures |pieces| >= 1
    ensures forall i :: 0 <= i < |pieces| ==> sep !in pieces[i]
    decreases |s|
  {
    if s == [] then [[]]
    else
      var rest := Split(s[1..], sep);
      if s[0] == sep then [[]] + rest
      else [[s[0]] + rest[0]] + rest[1..]
  }

  /** `pieces.join(sep)`: the pieces with one separator between neighbours. */
  function Join(pieces: seq<string>, sep: char): string
    requires |pieces| >= 1
  {
    if |pieces| == 1 then pieces[0]
    else pieces[0] + [sep] + Join(pieces[1..], sep)
  }

  /** Array indexing `a[i]`: an index past the end yields `undefined`. */
  function At<T>(a: seq<T>, i: nat): Option<T>
  {
    if i < |a| then Some(a[i]) else None
  }

  /** JavaScript truthiness of a value that is a string or `undefined`:
      `undefined` and `""` are falsy, every other string is truthy. */
  predicate IsTruthy(v: Option<string>)
  {
    v.Some? && v.value != ""
  }

  /** `a.includes(x)` on strings: a left-to-right scan comparing with
      strict equality, which on strings is exact, case-sensitive equality. */
  function Includes(a: seq<string>, x: string): (found: bool)
    ensures found <==> x in a
  {
    if a == [] then false
    else a[0] == x || Includes(a[1..], x)
  }

  /** Joining the pieces of a split gives back the original string. */
  lemma {:induction false} JoinSplit(s: string, sep: char)
    ensures Join(Split(s, sep), sep) == s
    decreases |s|
  {
    if s != [] {
      var rest := Split(s[1..], sep);
      JoinSplit(s[1..], sep);
      if s[0] == sep {
        assert ([[]] + rest)[1..] == rest;
      } else {
        var pieces := [[s[0]] + rest[0]] + rest[1..];
        if |rest| > 1 {
          assert pieces[1..] == rest[1..];
          assert Join(rest, sep) == rest[0] + [sep] + Join(rest[1..], sep);
        }
      }
    }
  }

  /** A string without the separator is a single piece. */
  lemma {:induction false} SplitWithoutSeparator(p: string, sep: char)
    requires sep !in p
    ensures Split(p, sep) == [p]
    decreases |p|
  {
    if p != [] {
      SplitWithoutSeparator(p[1..], sep);
      assert [p[0]] + p[1..] == p;
    }
  }

  /** The text before the first separator is the first piece, and the
      pieces after it are the split of the remainder. */
  lemma {:induction false} SplitAtFirstSeparator(p: string, t: string, sep: char)
    requires sep !in p
    ensures Split(p + [sep] + t, sep) == [p] + Split(t, sep)
    decreases |p|
  {
    var s := p + [sep] + t;
    if p == [] {
      assert s[1..] == t;
    } else {
      assert s[1..] == p[1..] + [sep] + t;
      SplitAtFirstSeparator(p[1..], t, sep);
      assert [p[0]] + p[1..] == p;
    }
  }

  /** Splitting a join gives back the pieces, provided none contains the
      separator: with `JoinSplit`, `Split` and `Join` are inverse
      bijections between strings and non-empty separator-free piece lists. */
  lemma {:induction false} SplitJoin(pieces: seq<string>, sep: char)
    requires |pieces| >= 1
    requires forall i :: 0 <= i < |pieces| ==> sep !in pieces[i]
    ensures Split(Join(pieces, sep), sep) == pieces
    decreases |pieces|
  {
    if |pieces| == 1 {
      SplitWithoutSeparator(pieces[0], sep);
    } else {
      assert sep !in pieces[0];
      SplitJoin(pieces[1..], sep);
      SplitAtFirstSeparator(pieces[0], Join(pieces[1..], sep), sep);
      assert [pieces[0]] + pieces[1..] == pieces;
    }
  }

  /** The first piece of a split is the text up to the first separator
      (or the whole string when there is none). */
  lemma FirstPiece(t: string, k: nat, sep: char)
    requires k <= |t|
    requires sep !in t[..k]
    requires k == |t| || t[k] == sep
    ensures Split(t, sep)[0] == t[..k]
  {
    if k == |t| {
      assert t[..k] == t;
      SplitWithoutSeparator(t, sep);
    } else {
      assert t == t[..k] + [sep] + t[k + 1..];
      SplitAtFirstSeparator(t[..k], t[k + 1..], sep);
    }
  }
}
