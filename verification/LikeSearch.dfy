/** Literal search through SQL LIKE (server/database.py:232-243). Case is already folded on both
    sides: user names are stored in lower case and the query is lowered before it gets here. */
module LikeSearch {

  const ESCAPE := '\\'

  // ---- LIKE with an escape character ----

  /** `s LIKE pattern ESCAPE '\'`: % stands for any string, _ for any character, and the escape makes
      the character after it stand for itself. A pattern that ends in the escape matches nothing. */
  predicate Like(pattern: string, s: string)
    decreases |pattern| + |s|
  {
    if |pattern| == 0 then |s| == 0
    else if pattern[0] == '%' then Like(pattern[1..], s) || (|s| > 0 && Like(pattern, s[1..]))
    else if pattern[0] == ESCAPE then
      |pattern| > 1 && |s| > 0 && pattern[1] == s[0] && Like(pattern[2..], s[1..])
    else |s| > 0 && (pattern[0] == '_' || pattern[0] == s[0]) && Like(pattern[1..], s[1..])
  }

  // ---- Escaping ----

  /** `s.replace(c, sub)` for a single character c. */
  function Replace(s: string, c: char, sub: string): string {
    if |s| == 0 then "" else (if s[0] == c then sub else [s[0]]) + Replace(s[1..], c, sub)
  }

  /** The three replacements of `search_users`, one after the other. */
  function Escaped(query: string): string {
    Replace(Replace(Replace(query, ESCAPE, [ESCAPE, ESCAPE]), '%', [ESCAPE, '%']), '_', [ESCAPE, '_'])
  }

  predicate Special(c: char) {
    c == ESCAPE || c == '%' || c == '_'
  }

  /** One escape per special character. */
  function EscapeEach(query: string): string {
    if |query| == 0 then ""
    else (if Special(query[0]) then [ESCAPE, query[0]] else [query[0]]) + EscapeEach(query[1..])
  }

  lemma {:induction false} ReplaceAppend(a: string, b: string, c: char, sub: string)
    ensures Replace(a + b, c, sub) == Replace(a, c, sub) + Replace(b, c, sub)
  {
    if |a| == 0 {
      assert a + b == b;
    } else {
      var head := if a[0] == c then sub else [a[0]];
      ReplaceAppend(a[1..], b, c, sub);
      assert (a + b)[1..] == a[1..] + b;
      assert Replace(a + b, c, sub) == head + (Replace(a[1..], c, sub) + Replace(b, c, sub));
    }
  }

  lemma ReplaceOne(x: char, c: char, sub: string)
    ensures Replace([x], c, sub) == if x == c then sub else [x]
  {
    assert [x][1..] == "";
  }

  lemma ReplaceTwo(x: char, y: char, c: char, sub: string)
    requires x != c && y != c
    ensures Replace([x, y], c, sub) == [x, y]
  {
    ReplaceOne(y, c, sub);
    assert [x, y][1..] == [y];
  }

  /** The backslashes the first replacement adds are not special to the others, so the three together
      put one escape before each special character. */
  lemma {:induction false} ThreeReplacementsEscapeEach(query: string)
    ensures Escaped(query) == EscapeEach(query)
  {
    if |query| > 0 {
      var c, rest := query[0], query[1..];
      ThreeReplacementsEscapeEach(rest);
      var head := if c == ESCAPE then [ESCAPE, ESCAPE] else [c];
      var mid := if c == '%' then [ESCAPE, '%'] else head;
      var last := if c == '_' then [ESCAPE, '_'] else mid;
      var r1 := Replace(rest, ESCAPE, [ESCAPE, ESCAPE]);
      var r2 := Replace(r1, '%', [ESCAPE, '%']);
      ReplaceAppend(head, r1, '%', [ESCAPE, '%']);
      ReplaceAppend(mid, r2, '_', [ESCAPE, '_']);
      assert Replace(head, '%', [ESCAPE, '%']) == mid by {
        if c == ESCAPE { ReplaceTwo(ESCAPE, ESCAPE, '%', [ESCAPE, '%']); } else { ReplaceOne(c, '%', [ESCAPE, '%']); }
      }
      assert Replace(mid, '_', [ESCAPE, '_']) == last by {
        if c == ESCAPE || c == '%' {
          ReplaceTwo(mid[0], mid[1], '_', [ESCAPE, '_']);
        } else {
          ReplaceOne(c, '_', [ESCAPE, '_']);
        }
      }
    }
  }

  // ---- Searching ----

  predicate StartsWith(s: string, q: string) {
    |q| <= |s| && s[..|q|] == q
  }

  ghost predicate Contains(s: string, q: string) {
    exists i :: 0 <= i <= |s| && StartsWith(s[i..], q)
  }

  lemma {:induction false} TrailingPercent(s: string)
    ensures Like("%", s)
  {
    if |s| > 0 { TrailingPercent(s[1..]); } else { assert "%"[1..] == ""; }
  }

  /** An escaped query matches itself and nothing else. */
  lemma {:induction false} EscapedMatchesPrefix(q: string, s: string)
    ensures Like(EscapeEach(q) + "%", s) <==> StartsWith(s, q)
  {
    if |q| == 0 {
      assert EscapeEach(q) + "%" == "%";
      TrailingPercent(s);
    } else {
      var c, rest := q[0], q[1..];
      var p, tail := EscapeEach(q) + "%", EscapeEach(rest) + "%";
      if Special(c) {
        assert p == [ESCAPE, c] + tail;
        assert p[2..] == tail;
      } else {
        assert p == [c] + tail;
        assert p[1..] == tail;
      }
      if |s| > 0 {
        EscapedMatchesPrefix(rest, s[1..]);
        if s[0] == c { PrefixStep(s, q); }
      }
    }
  }

  lemma PrefixStep(s: string, q: string)
    requires |s| > 0 && |q| > 0 && s[0] == q[0]
    ensures StartsWith(s, q) <==> StartsWith(s[1..], q[1..])
  {
    if |q| <= |s| {
      assert s[..|q|] == [s[0]] + s[1..][..|q| - 1];
      assert q == [q[0]] + q[1..];
    }
  }

  lemma {:induction false} LeadingPercent(p: string, s: string)
    ensures Like("%" + p, s) <==> exists i :: 0 <= i <= |s| && Like(p, s[i..])
    decreases |s|
  {
    assert ("%" + p)[1..] == p;
    assert s[0..] == s;
    if |s| > 0 {
      LeadingPercent(p, s[1..]);
      forall i | 0 <= i < |s|
        ensures s[1..][i..] == s[i + 1..]
      {}
      if exists i :: 0 <= i <= |s| && Like(p, s[i..]) {
        var i :| 0 <= i <= |s| && Like(p, s[i..]);
        if i > 0 { assert Like(p, s[1..][i - 1..]); }
      }
      if exists i :: 0 <= i <= |s| - 1 && Like(p, s[1..][i..]) {
        var i :| 0 <= i <= |s| - 1 && Like(p, s[1..][i..]);
        assert Like(p, s[i + 1..]);
      }
    }
  }

  /** A name matches the search pattern exactly when it contains the query, whatever wildcards and
      backslashes the query has in it. */
  lemma SearchIsLiteral(query: string, name: string)
    ensures Like("%" + Escaped(query) + "%", name) <==> Contains(name, query)
  {
    ThreeReplacementsEscapeEach(query);
    var p := EscapeEach(query) + "%";
    assert "%" + Escaped(query) + "%" == "%" + p;
    LeadingPercent(p, name);
    forall i | 0 <= i <= |name|
      ensures Like(p, name[i..]) <==> StartsWith(name[i..], query)
    {
      EscapedMatchesPrefix(query, name[i..]);
    }
  }
}
