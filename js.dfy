/** The small part of JavaScript's value and string semantics the server relies on:
    truthiness of optional strings, `String.prototype.includes`, `indexOf` and
    `split` on a one-character separator (with `Array.prototype.join` as its inverse). */
module Js {

  /** A value that may be missing: `None` stands for `undefined` or `null`. */
  datatype Option<+T> = None | Some(value: T)

  /** JavaScript truthiness of a value that is a string or missing: only a
      non-empty string is truthy (`if (x)`, `!x`). */
  predicate Truthy(v: Option<string>) {
    v.Some? && v.value != ""
  }

  /** `s.includes(t)`: `t` starts at position 0 of `s` or somewhere later. */
  predicate Includes(s: string, t: string)
    decreases |s|
  {
    t <= s || (s != [] && Includes(s[1..], t))
  }

  /** `t` occupies positions `i` to `i + |t|` of `s`. */
  predicate OccursAt(s: string, t: string, i: nat) {
    i + |t| <= |s| && s[i..i + |t|] == t
  }

  /** `Includes` holds exactly when `t` is a contiguous slice of `s`. */
  lemma {:induction false} IncludesAsSlice(s: string, t: string)
    ensures Includes(s, t) <==> exists i: nat :: OccursAt(s, t, i)
  {
    if t <= s {
      assert OccursAt(s, t, 0);
    } else if s != [] {
      IncludesAsSlice(s[1..], t);
      if Includes(s[1..], t) {
        var i: nat :| OccursAt(s[1..], t, i);
        assert s[i + 1..i + 1 + |t|] == s[1..][i..i + |t|];
        assert OccursAt(s, t, i + 1);
      }
      if exists i: nat :: OccursAt(s, t, i) {
        var i: nat :| OccursAt(s, t, i);
        if i > 0 {
          assert s[1..][i - 1..i - 1 + |t|] == s[i..i + |t|];
          assert OccursAt(s[1..], t, i - 1);
        }
      }
    }
  }

  /** `s.indexOf(c)`, with -1 as `None`: the first position holding `c`. */
  function IndexOf(s: string, c: char): (r: Option<nat>)
    ensures r.None? <==> c !in s
    ensures r.Some? ==> r.value < |s| && s[r.value] == c && c !in s[..r.value]
  {
    if s == [] then None
    else if s[0] == c then Some(0)
    else
      match IndexOf(s[1..], c)
      case None => None
      case Some(k) =>
        assert s[..k + 1] == [s[0]] + s[1..][..k];
        Some(k + 1)
  }

  /** A separator at the end of a separator-free prefix is the first one. */
  lemma IndexOfAfterPrefix(a: string, c: char, rest: string)
    requires c !in a
    ensures IndexOf(a + [c] + rest, c) == Some(|a|)
  {
    var s := a + [c] + rest;
    assert s[..|a|] == a;
    assert s[|a|] == c;
  }

  /** `pieces.join(sep)`. */
  function Join(pieces: seq<string>, sep: char): string
  {
    if pieces == [] then ""
    else if |pieces| == 1 then pieces[0]
    else pieces[0] + [sep] + Join(pieces[1..], sep)
  }

  /** `s.split(sep)` for a one-character separator: never empty, no piece holds
      the separator, and joining the pieces gives back `s`. */
  function Split(s: string, sep: char): (pieces: seq<string>)
    ensures |pieces| >= 1
    ensures |pieces| >= 2 <==> sep in s
    ensures forall i | 0 <= i < |pieces| :: sep !in pieces[i]
    ensures Join(pieces, sep) == s
    decreases |s|
  {
    match IndexOf(s, sep)
    case None => [s]
    case Some(k) =>
      var tail := Split(s[k + 1..], sep);
      assert s == s[..k] + [sep] + s[k + 1..];
      [s[..k]] + tail
  }

  /** Splitting at a first separator preceded by a separator-free piece. */
  lemma SplitAtFirst(a: string, sep: char, rest: string)
    requires sep !in a
    ensures Split(a + [sep] + rest, sep) == [a] + Split(rest, sep)
  {
    var s := a + [sep] + rest;
    IndexOfAfterPrefix(a, sep, rest);
    assert s[..|a|] == a;
    assert s[|a| + 1..] == rest;
  }

  /** The first piece is a prefix that ends at the end of `s` or at a separator. */
  lemma SplitHead(s: string, sep: char)
    ensures var h := Split(s, sep)[0];
            h <= s && (|h| == |s| || s[|h|] == sep)
  {
  }

  /** A separator-free prefix followed by the end or a separator is the first piece. */
  lemma SplitHeadOf(a: string, sep: char, rest: string)
    requires sep !in a
    requires rest == [] || rest[0] == sep
    ensures Split(a + rest, sep)[0] == a
  {
    if rest == [] {
      assert a + rest == a;
      SplitNoSeparator(a, sep);
    } else {
      assert a + rest == a + [sep] + rest[1..];
      SplitAtFirst(a, sep, rest[1..]);
    }
  }

  /** Splitting a separator-free string gives the string itself. */
  lemma SplitNoSeparator(s: string, sep: char)
    requires sep !in s
    ensures Split(s, sep) == [s]
  {
  }

  /** Occurrences of `c` in `s`. */
  function Occurrences(s: string, c: char): nat
  {
    if s == [] then 0 else (if s[0] == c then 1 else 0) + Occurrences(s[1..], c)
  }

  lemma {:induction false} OccurrencesAppend(a: string, b: string, c: char)
    ensures Occurrences(a + b, c) == Occurrences(a, c) + Occurrences(b, c)
  {
    if a == [] {
      assert a + b == b;
    } else {
      assert (a + b)[1..] == a[1..] + b;
      OccurrencesAppend(a[1..], b, c);
    }
  }

  lemma {:induction false} OccurrencesAbsent(s: string, c: char)
    requires c !in s
    ensures Occurrences(s, c) == 0
  {
    if s != [] {
      OccurrencesAbsent(s[1..], c);
    }
  }
}
