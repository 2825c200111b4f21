/** The `ILIKE '%text%'` filters of the contact query: SQL pattern matching in
    which `%` stands for any run of characters and `_` for any one character,
    compared without regard to (ASCII) letter case. */
module SqlLike {

  /** ASCII case folding. */
  function Fold(c: char): char {
    if 'A' <= c <= 'Z' then (c as int + 32) as char else c
  }

  /** `text ILIKE pattern`. */
  function ILike(pattern: string, text: string): bool
    decreases |pattern| + |text|
  {
    if pattern == [] then text == []
    else if pattern[0] == '%' then ILike(pattern[1..], text) || (text != [] && ILike(pattern, text[1..]))
    else text != [] && (pattern[0] == '_' || Fold(pattern[0]) == Fold(text[0])) && ILike(pattern[1..], text[1..])
  }

  /** The pattern `f"%{needle}%"` the repository builds. */
  function ContainsPattern(needle: string): string {
    "%" + needle + "%"
  }

  predicate NoWildcards(s: string) {
    forall i :: 0 <= i < |s| ==> s[i] != '%' && s[i] != '_'
  }

  predicate FoldEqual(a: string, b: string) {
    |a| == |b| && forall i :: 0 <= i < |a| ==> Fold(a[i]) == Fold(b[i])
  }

  /** `needle` occurs in `text` at position `i` when letter case is ignored. */
  predicate OccursAt(text: string, needle: string, i: int) {
    0 <= i <= |text| - |needle| && FoldEqual(text[i..i + |needle|], needle)
  }

  /** `needle` occurs somewhere in `text` when letter case is ignored. */
  predicate ContainsIgnoringCase(text: string, needle: string) {
    exists i :: 0 <= i <= |text| && OccursAt(text, needle, i)
  }

  lemma {:induction false} PercentMatchesAll(t: string)
    ensures ILike("%", t)
  {
    if t != [] {
      PercentMatchesAll(t[1..]);
    }
  }

  /** A leading `%` lets the rest of the pattern match any suffix. */
  lemma {:induction false} LeadingPercent(p: string, t: string)
    ensures ILike("%" + p, t) <==> exists i :: 0 <= i <= |t| && ILike(p, t[i..])
  {
    assert ("%" + p)[0] == '%' && ("%" + p)[1..] == p;
    assert t[0..] == t;
    if t != [] {
      LeadingPercent(p, t[1..]);
      forall i | 0 <= i <= |t| - 1 ensures t[1..][i..] == t[i + 1..] {
      }
      if ILike("%" + p, t[1..]) {
        var i :| 0 <= i <= |t| - 1 && ILike(p, t[1..][i..]);
        assert ILike(p, t[i + 1..]);
      }
      if exists i :: 0 <= i <= |t| && ILike(p, t[i..]) {
        var i :| 0 <= i <= |t| && ILike(p, t[i..]);
        if i > 0 {
          assert ILike(p, t[1..][i - 1..]);
        }
      }
    }
  }

  /** A pattern that starts with literal characters matches exactly the texts
      that start with them (ignoring case) and continue with a match of the rest. */
  lemma {:induction false} LiteralPrefix(f: string, q: string, t: string)
    requires NoWildcards(f)
    ensures ILike(f + q, t) <==> |f| <= |t| && FoldEqual(t[..|f|], f) && ILike(q, t[|f|..])
  {
    if f == [] {
      assert f + q == q && t[0..] == t;
    } else {
      assert (f + q)[0] == f[0] && (f + q)[1..] == f[1..] + q;
      if t != [] {
        LiteralPrefix(f[1..], q, t[1..]);
        if |f| <= |t| {
          assert t[1..][..|f| - 1] == t[1..|f|] && t[1..][|f| - 1..] == t[|f|..];
          assert FoldEqual(t[..|f|], f) <==> Fold(t[0]) == Fold(f[0]) && FoldEqual(t[1..|f|], f[1..]) by {
            if Fold(t[0]) == Fold(f[0]) && FoldEqual(t[1..|f|], f[1..]) {
              forall i | 0 <= i < |f| ensures Fold(t[..|f|][i]) == Fold(f[i]) {
                if i > 0 {
                  assert t[..|f|][i] == t[1..|f|][i - 1];
                }
              }
            }
          }
        }
      }
    }
  }

  /** Without wildcards in the filter, `ILIKE '%filter%'` is a case-insensitive
      substring test. */
  lemma ContainsPatternIsSubstring(needle: string, text: string)
    requires NoWildcards(needle)
    ensures ILike(ContainsPattern(needle), text) <==> ContainsIgnoringCase(text, needle)
  {
    assert ContainsPattern(needle) == "%" + (needle + "%");
    LeadingPercent(needle + "%", text);
    forall i | 0 <= i <= |text|
      ensures ILike(needle + "%", text[i..]) <==> OccursAt(text, needle, i)
    {
      LiteralPrefix(needle, "%", text[i..]);
      if i <= |text| - |needle| {
        assert text[i..][..|needle|] == text[i..i + |needle|];
        PercentMatchesAll(text[i..][|needle|..]);
      }
    }
    if ContainsIgnoringCase(text, needle) {
      var i :| 0 <= i <= |text| && OccursAt(text, needle, i);
      assert ILike(needle + "%", text[i..]);
    }
  }

  /** The filter text is itself a pattern: `_` in it matches any character,
      so "a_c" selects "abc", which does not contain "a_c". */
  lemma UnderscoreInFilterIsAWildcard()
    ensures ILike(ContainsPattern("a_c"), "abc")
    ensures !ContainsIgnoringCase("abc", "a_c")
  {
    assert ContainsPattern("a_c") == "%a_c%";
    assert "%a_c%"[1..] == "a_c%";
    assert "a_c%"[1..] == "_c%";
    assert "_c%"[1..] == "c%";
    assert "c%"[1..] == "%";
    assert "abc"[1..] == "bc" && "bc"[1..] == "c" && "c"[1..] == [];
    PercentMatchesAll([]);
    assert !FoldEqual("abc"[0..3], "a_c") by {
      assert Fold("abc"[0..3][1]) != Fold("a_c"[1]);
    }
  }
}
