/** The card-name normaliser of both face renderers:
    `card.name.replace("\\n", "\n").strip()`. A card name stored with the two
    characters backslash and `n` is turned into a real line break before layout. */
module CardName {
  import opened Text

  /** The two-character escape: a backslash followed by the letter n. */
  predicate EscapeAt(s: string, i: int) {
    0 <= i && i + 1 < |s| && s[i] == '\\' && s[i + 1] == 'n'
  }

  predicate NoEscapePair(s: string) {
    forall i :: 0 <= i < |s| - 1 ==> !EscapeAt(s, i)
  }

  /** How many escapes a left-to-right, non-overlapping scan finds. */
  function EscapeCount(s: string): nat
    decreases |s|
  {
    if EscapeAt(s, 0) then 1 + EscapeCount(s[2..])
    else if |s| == 0 then 0
    else EscapeCount(s[1..])
  }

  /** `s.replace("\\n", "\n")`: scanning left to right, every escape not overlapping
      an earlier one becomes one newline; the result holds no escape any more. */
  function ReplaceEscapes(s: string): (r: string)
    ensures NoEscapePair(r)
    ensures |r| == |s| - EscapeCount(s)
    ensures |s| > 0 ==> |r| > 0 && (r[0] == '\n' || r[0] == s[0])
    decreases |s|
  {
    if EscapeAt(s, 0) then
      var rest := ReplaceEscapes(s[2..]);
      NoEscapePairCons('\n', rest);
      "\n" + rest
    else if |s| == 0 then ""
    else
      var rest := ReplaceEscapes(s[1..]);
      NoEscapePairCons(s[0], rest);
      [s[0]] + rest
  }

  lemma NoEscapePairCons(c: char, t: string)
    requires NoEscapePair(t)
    requires c == '\\' && |t| > 0 ==> t[0] != 'n'
    ensures NoEscapePair([c] + t)
  {
    var s := [c] + t;
    forall i | 0 <= i < |s| - 1 ensures !EscapeAt(s, i) {
      if i > 0 {
        assert !EscapeAt(t, i - 1);
      }
    }
  }

  /** The opposite rewriting: every newline written back as the two-character escape. */
  function Escape(t: string): (r: string)
    ensures '\n' !in r
    decreases |t|
  {
    if |t| == 0 then ""
    else if t[0] == '\n' then "\\n" + Escape(t[1..])
    else [t[0]] + Escape(t[1..])
  }

  /** A name without real line breaks is recovered from its unescaped form. */
  lemma {:induction false} EscapeAfterReplace(s: string)
    requires '\n' !in s
    ensures Escape(ReplaceEscapes(s)) == s
    decreases |s|
  {
    if EscapeAt(s, 0) {
      EscapeAfterReplace(s[2..]);
      assert ("\n" + ReplaceEscapes(s[2..]))[1..] == ReplaceEscapes(s[2..]);
      assert s == "\\n" + s[2..];
    } else if |s| > 0 {
      EscapeAfterReplace(s[1..]);
      assert ([s[0]] + ReplaceEscapes(s[1..]))[1..] == ReplaceEscapes(s[1..]);
      assert s == [s[0]] + s[1..];
    }
  }

  /** A text with no escape pair in it survives escaping and unescaping. */
  lemma {:induction false} ReplaceAfterEscape(t: string)
    requires NoEscapePair(t)
    ensures ReplaceEscapes(Escape(t)) == t
    decreases |t|
  {
    if |t| > 0 {
      var rest := t[1..];
      assert NoEscapePair(rest) by {
        forall i | 0 <= i < |rest| - 1 ensures !EscapeAt(rest, i) {
          assert !EscapeAt(t, i + 1);
        }
      }
      ReplaceAfterEscape(rest);
      var e := Escape(t);
      if t[0] == '\n' {
        assert e[2..] == Escape(rest);
      } else {
        assert e[1..] == Escape(rest);
        if |rest| > 0 {
          assert !EscapeAt(t, 0);
          assert Escape(rest)[0] == (if rest[0] == '\n' then '\\' else rest[0]);
        }
        assert !EscapeAt(e, 0);
      }
      assert t == [t[0]] + rest;
    }
  }

  /** The name as drawn on the recto: escapes replaced, then outer whitespace trimmed.
      The result holds no escape pair, has no whitespace at either end, and is the
      unescaped name with only whitespace removed from its two ends. */
  function Normalise(name: string): (r: string)
    ensures NoEscapePair(r)
    ensures NoOuterSpace(r)
    ensures TrimmedAt(ReplaceEscapes(name), r, LeadingSpaces(ReplaceEscapes(name)))
    ensures |r| <= |name| - EscapeCount(name)
  {
    var u := ReplaceEscapes(name);
    var r := Strip(u);
    var i := LeadingSpaces(u);
    assert NoEscapePair(r) by {
      forall k | 0 <= k < |r| - 1 ensures !EscapeAt(r, k) {
        assert r[k] == u[i + k] && r[k + 1] == u[i + k + 1];
        assert !EscapeAt(u, i + k);
      }
    }
    r
  }
}
