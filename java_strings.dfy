/** The two java.lang.String operations the component relies on:
    `split` on a one-character separator and `toLowerCase`. */
module JavaStrings {

  /** Every piece of `s` between separators, empty pieces included:
      a string with k separators has k + 1 pieces. */
  function Pieces(s: string, sep: char): (parts: seq<string>)
    ensures |parts| == multiset(s)[sep] + 1
    ensures forall i :: 0 <= i < |parts| ==> sep !in parts[i]
    decreases |s|
  {
    if s == [] then [""]
    else
      var rest := Pieces(s[1..], sep);
      assert s == [s[0]] + s[1..];
      if s[0] == sep then [""] + rest
      else [[s[0]] + rest[0]] + rest[1..]
  }

  /** The pieces put back together, one separator between neighbours. */
  function Join(parts: seq<string>, sep: char): string
    requires |parts| >= 1
  {
    if |parts| == 1 then parts[0] else parts[0] + [sep] + Join(parts[1..], sep)
  }

  /** What String.split does after splitting when its limit is zero: the empty
      strings at the end are discarded, the others are kept. */
  function DropTrailingEmpty(parts: seq<string>): (kept: seq<string>)
    ensures kept <= parts
    ensures |kept| > 0 ==> kept[|kept| - 1] != ""
    ensures forall i :: |kept| <= i < |parts| ==> parts[i] == ""
  {
    if |parts| == 0 then []
    else if parts[|parts| - 1] == "" then DropTrailingEmpty(parts[..|parts| - 1])
    else parts
  }

  /** `s.split(regex)` for a regex matching exactly the character `sep`. When
      the separator does not occur the result is `[s]`, even for the empty string;
      otherwise it is the pieces without the trailing empty ones. */
  function Split(s: string, sep: char): (parts: seq<string>)
    ensures forall i :: 0 <= i < |parts| ==> sep !in parts[i]
    ensures |parts| <= multiset(s)[sep] + 1
    ensures sep !in s ==> parts == [s]
    ensures sep in s ==> parts <= Pieces(s, sep)
    ensures sep in s && |parts| > 0 ==> parts[|parts| - 1] != ""
    ensures sep in s ==> forall i :: |parts| <= i < |Pieces(s, sep)| ==> Pieces(s, sep)[i] == ""
  {
    if sep !in s then [s] else DropTrailingEmpty(Pieces(s, sep))
  }

  function LowerChar(c: char): char
  {
    if 'A' <= c <= 'Z' then (c as int + ('a' as int - 'A' as int)) as char else c
  }

  /** `String.toLowerCase()`, restricted to the ASCII letters. */
  function ToLower(s: string): (r: string)
    ensures |r| == |s|
    ensures forall i :: 0 <= i < |s| ==> r[i] == LowerChar(s[i])
    ensures forall i :: 0 <= i < |r| ==> !('A' <= r[i] <= 'Z')
  {
    seq(|s|, i requires 0 <= i < |s| => LowerChar(s[i]))
  }

  /** Two characters that are equal or an ASCII upper/lower-case pair. */
  predicate CasePartners(c: char, d: char)
  {
    || c == d
    || ('A' <= c <= 'Z' && d as int == c as int + ('a' as int - 'A' as int))
    || ('A' <= d <= 'Z' && c as int == d as int + ('a' as int - 'A' as int))
  }

  /** The strings differ at most in the case of ASCII letters. */
  predicate SameUpToAsciiCase(a: string, b: string)
  {
    |a| == |b| && forall i :: 0 <= i < |a| ==> CasePartners(a[i], b[i])
  }

  // ----- split -----

  /** Splitting and joining are inverse: joining the pieces gives back the string. */
  lemma {:induction false} JoinPieces(s: string, sep: char)
    ensures Join(Pieces(s, sep), sep) == s
    decreases |s|
  {
    if s != [] {
      var rest := Pieces(s[1..], sep);
      JoinPieces(s[1..], sep);
      if s[0] == sep {
        JoinSeparatorFirst(rest, sep);
      } else {
        JoinCharFirst(s[0], rest, sep);
      }
      assert s == [s[0]] + s[1..];
    }
  }

  /** An empty first piece contributes just the separator. */
  lemma JoinSeparatorFirst(rest: seq<string>, sep: char)
    requires |rest| >= 1
    ensures Join([""] + rest, sep) == [sep] + Join(rest, sep)
  {
    assert ([""] + rest)[1..] == rest;
  }

  /** A character put in front of the first piece ends up in front of the join. */
  lemma JoinCharFirst(c: char, rest: seq<string>, sep: char)
    requires |rest| >= 1
    ensures Join([[c] + rest[0]] + rest[1..], sep) == [c] + Join(rest, sep)
  {
    var parts := [[c] + rest[0]] + rest[1..];
    if |rest| > 1 {
      assert parts[1..] == rest[1..];
    }
  }

  /** A piece without separator in front of a separator comes off as one piece. */
  lemma {:induction false} PiecesCons(p: string, t: string, sep: char)
    requires sep !in p
    ensures Pieces(p + [sep] + t, sep) == [p] + Pieces(t, sep)
    decreases |p|
  {
    var s := p + [sep] + t;
    if p == [] {
      assert s[1..] == t;
    } else {
      assert s[1..] == p[1..] + [sep] + t;
      PiecesCons(p[1..], t, sep);
      assert [p[0]] + p[1..] == p;
    }
  }

  /** A string without separator is one piece. */
  lemma {:induction false} PiecesNoSep(p: string, sep: char)
    requires sep !in p
    ensures Pieces(p, sep) == [p]
    decreases |p|
  {
    if p != [] {
      PiecesNoSep(p[1..], sep);
      assert [p[0]] + p[1..] == p;
    }
  }

  /** Joining pieces that contain no separator and splitting again gives them back. */
  lemma {:induction false} PiecesOfJoin(parts: seq<string>, sep: char)
    requires |parts| >= 1
    requires forall i :: 0 <= i < |parts| ==> sep !in parts[i]
    ensures Pieces(Join(parts, sep), sep) == parts
    decreases |parts|
  {
    if |parts| == 1 {
      PiecesNoSep(parts[0], sep);
    } else {
      PiecesOfJoin(parts[1..], sep);
      PiecesCons(parts[0], Join(parts[1..], sep), sep);
      assert [parts[0]] + parts[1..] == parts;
    }
  }

  /** Java's split of joined components with a non-empty last one returns
      exactly those components. */
  lemma SplitOfJoin(parts: seq<string>, sep: char)
    requires |parts| >= 2
    requires forall i :: 0 <= i < |parts| ==> sep !in parts[i]
    requires parts[|parts| - 1] != ""
    ensures Split(Join(parts, sep), sep) == parts
  {
    PiecesOfJoin(parts, sep);
    var s := Join(parts, sep);
    assert s == parts[0] + [sep] + Join(parts[1..], sep);
    assert s[|parts[0]|] == sep;
  }

  /** Java's split of joined components that end in one empty component drops
      just that one. */
  lemma SplitOfJoinTrailingEmpty(parts: seq<string>, sep: char)
    requires |parts| >= 2
    requires forall i :: 0 <= i < |parts| ==> sep !in parts[i]
    requires parts[|parts| - 2] != "" && parts[|parts| - 1] == ""
    ensures Split(Join(parts, sep), sep) == parts[..|parts| - 1]
  {
    PiecesOfJoin(parts, sep);
    var s := Join(parts, sep);
    assert s == parts[0] + [sep] + Join(parts[1..], sep);
    assert s[|parts[0]|] == sep;
    assert DropTrailingEmpty(parts) == DropTrailingEmpty(parts[..|parts| - 1]);
  }

  /** Java's split drops trailing empty components: "a.b.c." has three. */
  lemma SplitDropsTrailingExample(s: string)
    requires s == "a.b.c."
    ensures Split(s, '.') == ["a", "b", "c"]
  {
    var parts := ["a", "b", "c", ""];
    assert Join(parts[3..], '.') == "";
    assert Join(parts[2..], '.') == "c.";
    assert Join(parts[1..], '.') == "b.c.";
    assert Join(parts, '.') == s;
    SplitOfJoinTrailingEmpty(parts, '.');
    assert parts[..3] == ["a", "b", "c"];
  }

  /** Java's split keeps leading and inner empty components: ".a..b" has four. */
  lemma SplitKeepsLeadingExample()
    ensures Split(".a..b", '.') == ["", "a", "", "b"]
  {
    var parts := ["", "a", "", "b"];
    assert Join(parts[3..], '.') == "b";
    assert Join(parts[2..], '.') == ".b";
    assert Join(parts[1..], '.') == "a..b";
    assert Join(parts, '.') == ".a..b";
    SplitOfJoin(parts, '.');
  }

  /** A string of separators only has no components at all. */
  lemma SplitSeparatorsOnlyExample()
    ensures Split("...", '.') == []
  {
    var parts := ["", "", "", ""];
    assert Join(parts[3..], '.') == "";
    assert Join(parts[2..], '.') == ".";
    assert Join(parts[1..], '.') == "..";
    assert Join(parts, '.') == "...";
    PiecesOfJoin(parts, '.');
    assert "..."[0] == '.';
  }

  /** Without a separator the string is its one component, even when empty. */
  lemma SplitEmptyExample()
    ensures Split("", '.') == [""]
  {
  }

  // ----- toLowerCase -----

  /** Lowercasing twice is lowercasing once. */
  lemma ToLowerIdempotent(s: string)
    ensures ToLower(ToLower(s)) == ToLower(s)
  {
  }

  /** Two strings lowercase alike exactly when they differ at most in the case
      of ASCII letters. */
  lemma ToLowerEqualIff(a: string, b: string)
    ensures ToLower(a) == ToLower(b) <==> SameUpToAsciiCase(a, b)
  {
    if ToLower(a) == ToLower(b) {
      forall i | 0 <= i < |a| ensures CasePartners(a[i], b[i]) {
        assert LowerChar(a[i]) == ToLower(a)[i] == ToLower(b)[i] == LowerChar(b[i]);
      }
    }
    if SameUpToAsciiCase(a, b) {
      assert forall i :: 0 <= i < |a| ==> ToLower(a)[i] == ToLower(b)[i];
    }
  }
}
