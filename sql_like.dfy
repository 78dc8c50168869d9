/** SQL `LIKE` pattern matching as MariaDB applies it to a bound parameter:
    `%` matches any run of characters, `_` any single character, and the default
    escape character `\` makes the next pattern character literal. Collations
    (case folding, trailing-space padding) are not part of this model. */
module SqlLike {
  import opened Js

  /** A character with a special meaning inside a LIKE pattern. */
  predicate Special(c: char) {
    c == '%' || c == '_' || c == '\\'
  }

  /** A string that a LIKE pattern reads character for character. */
  predicate Literal(v: string) {
    forall i | 0 <= i < |v| :: !Special(v[i])
  }

  /** `s LIKE p`. */
  predicate Matches(s: string, p: string)
    decreases |p|, |s|
  {
    if p == [] then s == []
    else if p[0] == '%' then Matches(s, p[1..]) || (s != [] && Matches(s[1..], p))
    else if p[0] == '_' then s != [] && Matches(s[1..], p[1..])
    else if p[0] == '\\' && |p| >= 2 then s != [] && s[0] == p[1] && Matches(s[1..], p[2..])
    else s != [] && s[0] == p[0] && Matches(s[1..], p[1..])
  }

  /** The pattern `%` matches every string. */
  lemma {:induction false} PercentMatchesAll(s: string)
    ensures Matches(s, "%")
  {
    if s != [] {
      PercentMatchesAll(s[1..]);
    }
  }

  /** A literal followed by `%` matches exactly the strings it is a prefix of. */
  lemma {:induction false} LiteralPrefix(s: string, v: string)
    requires Literal(v)
    ensures Matches(s, v + "%") <==> v <= s
  {
    if v == [] {
      assert v + "%" == "%";
      PercentMatchesAll(s);
    } else {
      assert (v + "%")[0] == v[0] && !Special(v[0]);
      assert (v + "%")[1..] == v[1..] + "%";
      if s != [] {
        LiteralPrefix(s[1..], v[1..]);
      }
    }
  }

  /** The pattern `%v%` built from a literal `v` matches exactly the strings that
      contain `v`: the substring reading of the listing's LIKE filters. */
  lemma {:induction false} ContainsPattern(s: string, v: string)
    requires Literal(v)
    ensures Matches(s, "%" + v + "%") <==> Includes(s, v)
  {
    var p := "%" + v + "%";
    assert p[0] == '%';
    assert p[1..] == v + "%";
    LiteralPrefix(s, v);
    if s != [] {
      ContainsPattern(s[1..], v);
    }
  }

  /** Without the literal requirement the substring reading fails: `%_%` matches
      a one-character string that does not contain `_`. */
  lemma WildcardPattern()
    ensures Matches("x", "%" + "_" + "%") && !Includes("x", "_")
  {
    var p := "%" + "_" + "%";
    assert p[1..] == "_%";
    assert "_%"[1..] == "%";
    PercentMatchesAll([]);
    assert "x"[1..] == [];
    assert "x"[0] != "_"[0];
    assert !Includes("x"[1..], "_");
  }
}
