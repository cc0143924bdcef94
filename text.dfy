/**
 * The few Python `str` operations the input scanner of initialisation.py relies on:
 * `isspace`, `strip`, `find`, `split(sep)`, `split()` and the `[1]` element of a split.
 * Python's prefix test `startswith` is Dafny's prefix relation `p <= s`.
 */
module Text {
  import opened Wrappers

  /**
   * The characters for which Python's `str.isspace` holds, which are also the ones `strip()` and
   * `split()` remove: the ASCII controls TAB to CR and FS to US, the space, NEL, NO-BREAK SPACE,
   * OGHAM SPACE MARK, the spaces U+2000 to U+200A, LINE and PARAGRAPH SEPARATOR, NARROW NO-BREAK
   * SPACE, MEDIUM MATHEMATICAL SPACE and IDEOGRAPHIC SPACE.
   */
  predicate IsSpace(c: char) {
    ('\t' <= c <= '\r') || ('\U{1C}' <= c <= ' ')
    || c == '\U{85}' || c == '\U{A0}' || c == '\U{1680}' || ('\U{2000}' <= c <= '\U{200A}')
    || c == '\U{2028}' || c == '\U{2029}' || c == '\U{202F}' || c == '\U{205F}' || c == '\U{3000}'
  }

  /** Python's `s.isspace()`: false for the empty string. */
  predicate IsSpaceLine(s: string)
    ensures IsSpaceLine(s) <==> |s| > 0 && Strip(s) == ""
  {
    var lead := LeadingSpaces(s);
    assert lead < |s| ==> !IsSpace(s[lead]);
    |s| > 0 && forall j | 0 <= j < |s| :: IsSpace(s[j])
  }

  predicate OccursAt(s: string, p: string, j: int) {
    0 <= j && j + |p| <= |s| && s[j..j + |p|] == p
  }

  predicate Occurs(s: string, p: string) {
    exists j | 0 <= j <= |s| :: OccursAt(s, p, j)
  }

  /** Python's `s.find(p)`, searched from position `from` on. */
  function FindFrom(s: string, p: string, from: nat): (r: int)
    requires from <= |s|
    ensures r == -1 || from <= r <= |s| - |p|
    ensures r >= 0 ==> OccursAt(s, p, r)
    ensures forall j | from <= j && (r < 0 || j < r) :: !OccursAt(s, p, j)
    decreases |s| - from
  {
    if from + |p| > |s| then -1
    else if s[from..from + |p|] == p then from
    else if from == |s| then -1
    else FindFrom(s, p, from + 1)
  }

  /** Python's `s.find(p)`: the first position where `p` occurs, or -1. */
  function Find(s: string, p: string): (r: int)
    ensures r == -1 <==> !Occurs(s, p)
    ensures r >= 0 ==> OccursAt(s, p, r) && forall j | 0 <= j < r :: !OccursAt(s, p, j)
  {
    FindFrom(s, p, 0)
  }

  /** A pattern that does not occur in a string does not occur in any slice of it. */
  lemma {:induction false} NotInSlice(s: string, p: string, a: nat, b: nat)
    requires a <= b <= |s|
    requires !Occurs(s, p)
    ensures !Occurs(s[a..b], p)
  {
    if Occurs(s[a..b], p) {
      var j :| 0 <= j <= b - a && OccursAt(s[a..b], p, j);
      var inner, outer := s[a..b][j..j + |p|], s[a + j..a + j + |p|];
      assert inner == outer by {
        forall q | 0 <= q < |p| ensures inner[q] == outer[q] {
          assert inner[q] == s[a..b][j + q] == s[a + j + q];
        }
      }
      assert OccursAt(s, p, a + j);
      assert false;
    }
  }

  /** The number of whitespace characters `s` starts with. */
  function LeadingSpaces(s: string): (n: nat)
    ensures n <= |s|
    ensures forall j | 0 <= j < n :: IsSpace(s[j])
    ensures n < |s| ==> !IsSpace(s[n])
  {
    if |s| > 0 && IsSpace(s[0]) then 1 + LeadingSpaces(s[1..]) else 0
  }

  /** The number of whitespace characters `s` ends with. */
  function TrailingSpaces(s: string): (n: nat)
    ensures n <= |s|
    ensures forall j | |s| - n <= j < |s| :: IsSpace(s[j])
    ensures n < |s| ==> !IsSpace(s[|s| - 1 - n])
  {
    if |s| > 0 && IsSpace(s[|s| - 1]) then 1 + TrailingSpaces(s[..|s| - 1]) else 0
  }

  /** Python's `s.strip()`: `s` without its leading and trailing whitespace. */
  function Strip(s: string): (r: string)
    ensures |r| <= |s|
    ensures |r| > 0 ==> !IsSpace(r[0]) && !IsSpace(r[|r| - 1])
    ensures LeadingSpaces(s) + |r| <= |s| && r == s[LeadingSpaces(s)..LeadingSpaces(s) + |r|]
    ensures forall j | LeadingSpaces(s) + |r| <= j < |s| :: IsSpace(s[j])
  {
    var a := LeadingSpaces(s);
    var t := s[a..];
    var r := t[..|t| - TrailingSpaces(t)];
    assert r == s[a..a + |r|];
    r
  }

  /** Concatenation of `pieces` with `sep` between neighbours: the inverse of `Split`. */
  function Join(pieces: seq<string>, sep: char): string {
    if |pieces| == 0 then ""
    else if |pieces| == 1 then pieces[0]
    else pieces[0] + ([sep] + Join(pieces[1..], sep))
  }

  /** Python's `s.split(sep)` for a one-character separator. */
  function Split(s: string, sep: char): (r: seq<string>)
    ensures |r| >= 1
    ensures forall j | 0 <= j < |r| :: sep !in r[j]
    ensures Join(r, sep) == s
    decreases |s|
  {
    var i := FindFrom(s, [sep], 0);
    if i < 0 then
      assert forall j | 0 <= j < |s| :: s[j] != sep by {
        forall j | 0 <= j < |s| ensures s[j] != sep {
          assert s[j..j + 1] == [s[j]];
          assert !OccursAt(s, [sep], j);
        }
      }
      [s]
    else
      var head := s[..i];
      assert sep !in head by {
        forall j | 0 <= j < i ensures head[j] != sep {
          assert s[j..j + 1] == [s[j]];
          assert !OccursAt(s, [sep], j);
        }
      }
      var rest := Split(s[i + 1..], sep);
      assert s[i..i + 1] == [sep];
      assert s == head + ([sep] + s[i + 1..]);
      [head] + rest
  }

  /** `v` stands right after the first `=` of `line`, at `i`, and runs up to the next `=` or the end. */
  predicate ValueAt(line: string, i: nat, v: string) {
    && i < |line| && line[i] == '=' && '=' !in line[..i] && i + 1 + |v| <= |line|
    && line[i + 1..i + 1 + |v|] == v
    && (i + 1 + |v| == |line| || line[i + 1 + |v|] == '=')
  }

  /** Python's `line.split('=')[1]`; `None` where Python raises IndexError. */
  function Field(line: string): (r: Option<string>)
    ensures r.Some? <==> '=' in line
    ensures r.Some? ==> '=' !in r.value
    ensures r.Some? ==> exists i | 0 <= i < |line| :: ValueAt(line, i, r.value)
  {
    var pieces := Split(line, '=');
    if |pieces| >= 2 then
      SecondPiece(line, '=', pieces);
      assert ValueAt(line, |pieces[0]|, pieces[1]);
      Some(pieces[1])
    else
      assert pieces == [line];
      None
  }

  /** The pieces of `a`, a separator, `v` and `rest`, seen from the positions of the whole. */
  lemma SliceAround(s: string, a: string, c: char, v: string, rest: string)
    requires s == a + ([c] + (v + rest))
    ensures var i := |a|;
            && |s| == i + 1 + |v| + |rest|
            && s[..i] == a && s[i] == c && s[i + 1..i + 1 + |v|] == v && s[i + 1 + |v|..] == rest
            && (|rest| == 0 || rest[0] == c ==> i + 1 + |v| == |s| || s[i + 1 + |v|] == c)
  {
    assert s[|a| + 1..] == v + rest by { assert s[|a|..] == [c] + (v + rest); }
  }

  /** Where the second of the pieces joined into `s` lies: after the first separator, up to the next one. */
  lemma SecondPiece(s: string, sep: char, pieces: seq<string>)
    requires |pieces| >= 2 && Join(pieces, sep) == s
    ensures var i, v := |pieces[0]|, pieces[1];
            && i + 1 + |v| <= |s| && s[..i] == pieces[0] && s[i] == sep
            && s[i + 1..i + 1 + |v|] == v && (i + 1 + |v| == |s| || s[i + 1 + |v|] == sep)
  {
    var v := pieces[1];
    var rest: string;
    if |pieces| > 2 {
      rest := [sep] + Join(pieces[2..], sep);
      assert pieces[1..][1..] == pieces[2..];
      assert Join(pieces[1..], sep) == v + rest;
    } else {
      rest := "";
      assert Join(pieces[1..], sep) == v + rest;
    }
    assert s == pieces[0] + ([sep] + (v + rest));
    SliceAround(s, pieces[0], sep, v, rest);
  }

  /** The length of the maximal run of non-space characters `s` starts with. */
  function WordLength(s: string): (n: nat)
    ensures n <= |s|
    ensures forall j | 0 <= j < n :: !IsSpace(s[j])
    ensures n < |s| ==> IsSpace(s[n])
  {
    if |s| > 0 && !IsSpace(s[0]) then 1 + WordLength(s[1..]) else 0
  }

  /** A non-empty run of non-whitespace characters. */
  predicate IsWord(w: string) {
    |w| > 0 && forall q | 0 <= q < |w| :: !IsSpace(w[q])
  }

  /** Python's `s.split()`: the maximal runs of non-whitespace characters. */
  function Words(s: string): (r: seq<string>)
    ensures forall j | 0 <= j < |r| :: IsWord(r[j])
    ensures |r| > 0 <==> exists i | 0 <= i < |s| :: !IsSpace(s[i])
    decreases |s|
  {
    var lead := LeadingSpaces(s);
    var t := s[lead..];
    if |t| == 0 then
      assert forall i | 0 <= i < |s| :: IsSpace(s[i]);
      []
    else
      assert !IsSpace(s[lead]);
      var w := WordLength(t);
      var first, rest := t[..w], Words(t[w..]);
      assert IsWord(first);
      [first] + rest
  }

  /**
   * `" ".join(s.split())`, character by character: a whitespace run between two words becomes one
   * space, whitespace before the first word and after the last one disappears.  `word` says that
   * a word character was emitted, `gap` that whitespace followed it.
   */
  function Spaced(s: string, word: bool, gap: bool): string
    decreases |s|
  {
    if |s| == 0 then ""
    else if IsSpace(s[0]) then Spaced(s[1..], word, word)
    else Gap(gap, [s[0]] + Spaced(s[1..], true, false))
  }

  /** `x`, preceded by one space when `gap` holds. */
  function Gap(gap: bool, x: string): string {
    if gap then " " + x else x
  }

  /** What follows a word in the joined text: nothing, or a space and the remaining words. */
  function After(ws: seq<string>): string {
    if ws == [] then "" else " " + Join(ws, ' ')
  }

  lemma {:induction false} SpacedSkipsSpaces(s: string, n: nat, word: bool, gap: bool)
    requires n <= |s| && forall j | 0 <= j < n :: IsSpace(s[j])
    ensures Spaced(s, word, gap) == Spaced(s[n..], word, if n > 0 then word else gap)
    decreases n
  {
    if n > 0 {
      SpacedSkipsSpaces(s[1..], n - 1, word, word);
      assert s[1..][n - 1..] == s[n..];
    }
  }

  lemma {:induction false} SpacedCopiesWord(s: string, n: nat, word: bool, gap: bool)
    requires 0 < n <= |s| && forall j | 0 <= j < n :: !IsSpace(s[j])
    ensures Spaced(s, word, gap) == Gap(gap, s[..n] + Spaced(s[n..], true, false))
    decreases n
  {
    var x := Spaced(s[n..], true, false);
    if n > 1 {
      SpacedCopiesWord(s[1..], n - 1, true, false);
      assert s[1..][..n - 1] == s[1..n] && s[1..][n - 1..] == s[n..];
      assert Spaced(s[1..], true, false) == s[1..n] + x;
      assert [s[0]] + (s[1..n] + x) == ([s[0]] + s[1..n]) + x;
      assert [s[0]] + s[1..n] == s[..n];
    } else {
      assert s[..1] == [s[0]];
    }
  }

  /** Right after a word, text that is empty or starts with whitespace already counts as a gap. */
  lemma AfterWord(rest: string)
    requires |rest| == 0 || IsSpace(rest[0])
    ensures Spaced(rest, true, false) == Spaced(rest, true, true)
  {
    if |rest| > 0 {
      var m := LeadingSpaces(rest);
      SpacedSkipsSpaces(rest, m, true, false);
      SpacedSkipsSpaces(rest, m, true, true);
    }
  }

  /** Joining a word and the words after it. */
  lemma JoinFront(w: string, ws: seq<string>)
    ensures Join([w] + ws, ' ') == w + After(ws)
  {
    assert ([w] + ws)[1..] == ws;
    if ws == [] {
      assert w + "" == w;
    } else {
      assert w + " " + Join(ws, ' ') == w + (" " + Join(ws, ' '));
    }
  }

  /** The first word of a text that holds one, and what follows it. */
  lemma FirstWord(s: string) returns (w: string, rest: string)
    requires LeadingSpaces(s) < |s|
    ensures Words(s) == [w] + Words(rest) && |rest| < |s|
    ensures |rest| == 0 || IsSpace(rest[0])
    ensures Spaced(s, false, false) == w + Spaced(rest, true, false)
    ensures Spaced(s, true, true) == " " + (w + Spaced(rest, true, false))
  {
    var lead := LeadingSpaces(s);
    var t := s[lead..];
    var n := WordLength(t);
    w, rest := t[..n], t[n..];
    SpacedSkipsSpaces(s, lead, false, false);
    SpacedSkipsSpaces(s, lead, true, true);
    SpacedCopiesWord(t, n, false, false);
    SpacedCopiesWord(t, n, true, true);
  }

  /** The two contexts of `Spaced`: at the start of the text, and after a word and some space. */
  lemma {:induction false} SpacedJoinsWords(s: string)
    ensures Spaced(s, false, false) == Join(Words(s), ' ')
    ensures Spaced(s, true, true) == After(Words(s))
    decreases |s|
  {
    var lead := LeadingSpaces(s);
    if lead < |s| {
      var w, rest := FirstWord(s);
      SpacedJoinsWords(rest);
      AfterWord(rest);
      JoinFront(w, Words(rest));
    } else {
      SpacedSkipsSpaces(s, lead, false, false);
      SpacedSkipsSpaces(s, lead, true, true);
      assert s[lead..] == [];
    }
  }

  /** Joining the words of `s` with single spaces gives `s` with its whitespace normalised. */
  lemma WordsRoundTrip(s: string)
    ensures Join(Words(s), ' ') == Spaced(s, false, false)
  {
    SpacedJoinsWords(s);
  }
}
