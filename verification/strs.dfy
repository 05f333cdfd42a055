/**
  The two pieces of Go's `strings` package the flood-fill code relies on,
  `strings.Split` with a one-character separator and `strings.Join`, as
  functions on sequences of characters, with the facts that make them
  inverse to each other.
 */
module Strs {

  /** `strings.Join(xs, sep)`: the elements of `xs` with `sep` between each
      adjacent pair. */
  function Join(xs: seq<string>, sep: string): string
  {
    if |xs| == 0 then ""
    else if |xs| == 1 then xs[0]
    else xs[0] + sep + Join(xs[1..], sep)
  }

  /** `strings.Split(s, [c])`: the maximal runs of `s` between occurrences of
      `c`; always at least one piece, and no piece holds the separator. */
  function Split(s: string, c: char): (r: seq<string>)
    ensures |r| > 0
    ensures forall i :: 0 <= i < |r| ==> c !in r[i]
  {
    if |s| == 0 then [""]
    else if s[0] == c then [""] + Split(s[1..], c)
    else
      var t := Split(s[1..], c);
      [[s[0]] + t[0]] + t[1..]
  }

  /** Total length of the strings in `xs`. */
  function TotalLength(xs: seq<string>): nat
  {
    if xs == [] then 0 else |xs[0]| + TotalLength(xs[1..])
  }

  /** Joining the pieces of a split gives back the original string. */
  lemma {:induction false} JoinSplit(s: string, c: char)
    ensures Join(Split(s, c), [c]) == s
  {
    if |s| == 0 {
    } else if s[0] == c {
      var t := Split(s[1..], c);
      JoinSplit(s[1..], c);
      assert Split(s, c) == [""] + t;
      assert ([""] + t)[1..] == t;
      assert s == [c] + s[1..];
    } else {
      var t := Split(s[1..], c);
      JoinSplit(s[1..], c);
      JoinGlue([s[0]], t, [c]);
      assert s == [s[0]] + s[1..];
    }
  }

  /** Gluing `x` to the front of the first piece glues it to the front of
      the join. */
  lemma JoinGlue(x: string, t: seq<string>, sep: string)
    requires |t| > 0
    ensures Join([x + t[0]] + t[1..], sep) == x + Join(t, sep)
  {
    var r := [x + t[0]] + t[1..];
    assert r[1..] == t[1..];
  }

  /** Splitting a string whose head `p` has no separator: `p` is glued to the
      front of the first piece of the rest. */
  lemma {:induction false} SplitPrefix(p: string, t: string, c: char)
    requires c !in p
    ensures Split(p + t, c) == [p + Split(t, c)[0]] + Split(t, c)[1..]
  {
    if p == [] {
      assert p + t == t;
      assert p + Split(t, c)[0] == Split(t, c)[0];
      assert Split(t, c) == [Split(t, c)[0]] + Split(t, c)[1..];
    } else {
      SplitPrefix(p[1..], t, c);
      assert (p + t)[0] == p[0];
      assert (p + t)[1..] == p[1..] + t;
      assert [p[0]] + (p[1..] + Split(t, c)[0]) == p + Split(t, c)[0];
    }
  }

  /** Splitting a join of separator-free pieces gives back the pieces. */
  lemma {:induction false} SplitJoin(parts: seq<string>, c: char)
    requires |parts| > 0
    requires forall i :: 0 <= i < |parts| ==> c !in parts[i]
    ensures Split(Join(parts, [c]), c) == parts
  {
    if |parts| == 1 {
      SplitPrefix(parts[0], "", c);
      assert parts[0] + "" == parts[0];
    } else {
      var rest := parts[1..];
      var j := Join(rest, [c]);
      SplitJoin(rest, c);
      assert Join(parts, [c]) == parts[0] + ([c] + j);
      SplitPrefix(parts[0], [c] + j, c);
      assert ([c] + j)[0] == c && ([c] + j)[1..] == j;
      assert Split([c] + j, c) == [""] + rest;
      assert ([""] + rest)[0] == "" && ([""] + rest)[1..] == rest;
      assert parts[0] + "" == parts[0];
      assert parts == [parts[0]] + rest;
    }
  }

  /** Appending one more element adds a separator and that element. */
  lemma {:induction false} JoinAppend(xs: seq<string>, x: string, sep: string)
    requires |xs| > 0
    ensures Join(xs + [x], sep) == Join(xs, sep) + sep + x
  {
    if |xs| == 1 {
      assert xs + [x] == [xs[0], x];
      assert [xs[0], x][1..] == [x];
    } else {
      JoinAppend(xs[1..], x, sep);
      assert (xs + [x])[1..] == xs[1..] + [x];
    }
  }

  /** A join is as long as its parts plus one separator between each pair. */
  lemma {:induction false} JoinLength(xs: seq<string>, sep: string)
    requires |xs| > 0
    ensures |Join(xs, sep)| == TotalLength(xs) + (|xs| - 1) * |sep|
  {
    if |xs| > 1 {
      JoinLength(xs[1..], sep);
    }
  }
}
