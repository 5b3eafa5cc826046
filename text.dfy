/** Option, the stand-in for the nullable references of the source. */
module Wrappers {
  datatype Option<+T> = None | Some(value: T)
}

/** The string operations of the .NET base library that the core relies on:
    char.IsWhiteSpace, string.IsNullOrWhiteSpace, Trim, Split with
    TrimEntries | RemoveEmptyEntries, and one case fold standing for both
    StringComparer.OrdinalIgnoreCase and ToLower. */
module Text {
  import opened Wrappers

  /** char.IsWhiteSpace: the controls U+0009..U+000D and U+0085 and the Unicode
      space, line and paragraph separators. */
  predicate IsWhiteSpace(c: char) {
    || c == ' '
    || ('\t' <= c <= '\r')
    || c == '\U{85}' || c == '\U{A0}' || c == '\U{1680}'
    || ('\U{2000}' <= c <= '\U{200A}')
    || c == '\U{2028}' || c == '\U{2029}' || c == '\U{202F}' || c == '\U{205F}' || c == '\U{3000}'
  }

  /** Empty or made of white space only. */
  predicate IsBlank(s: string) {
    forall i :: 0 <= i < |s| ==> IsWhiteSpace(s[i])
  }

  /** string.IsNullOrWhiteSpace, with null as None. */
  predicate IsNullOrWhiteSpace(s: Option<string>) {
    s.None? || IsBlank(s.value)
  }

  /** Neither starts nor ends with white space. */
  predicate IsTrimmed(s: string) {
    s == [] || (!IsWhiteSpace(s[0]) && !IsWhiteSpace(s[|s| - 1]))
  }

  /** The first index from `i` on that does not hold white space, or |s|
      when there is none. */
  function SkipBlanks(s: string, i: nat): (k: nat)
    requires i <= |s|
    ensures i <= k <= |s|
    ensures forall j :: i <= j < k ==> IsWhiteSpace(s[j])
    ensures k < |s| ==> !IsWhiteSpace(s[k])
    decreases |s| - i
  {
    if i < |s| && IsWhiteSpace(s[i]) then SkipBlanks(s, i + 1) else i
  }

  /** Scanning down from `e` to no lower than `lo`: the end of s[..e] once
      its trailing white space is dropped. */
  function SkipBlanksBack(s: string, lo: nat, e: nat): (k: nat)
    requires lo <= e <= |s|
    ensures lo <= k <= e
    ensures forall j :: k <= j < e ==> IsWhiteSpace(s[j])
    ensures k > lo ==> !IsWhiteSpace(s[k - 1])
    decreases e
  {
    if e > lo && IsWhiteSpace(s[e - 1]) then SkipBlanksBack(s, lo, e - 1) else e
  }

  /** string.Trim(): the slice of `s` between its leading and its trailing
      white space (TrimIsMiddle). */
  function Trim(s: string): (r: string)
    ensures IsTrimmed(r)
    ensures r == [] <==> IsBlank(s)
    ensures |r| <= |s|
    ensures IsTrimmed(s) ==> r == s
  {
    var a := SkipBlanks(s, 0);
    var b := SkipBlanksBack(s, a, |s|);
    assert IsBlank(s) ==> a == |s|;
    s[a..b]
  }

  /** Trim keeps one slice of `s` and what it cuts on either side is blank;
      since the result is trimmed, no other slice qualifies. */
  lemma TrimIsMiddle(s: string)
    ensures var k := SkipBlanks(s, 0);
      && k + |Trim(s)| <= |s|
      && Trim(s) == s[k..k + |Trim(s)|]
      && IsBlank(s[..k]) && IsBlank(s[k + |Trim(s)|..])
  {
    var k := SkipBlanks(s, 0);
    var e := SkipBlanksBack(s, k, |s|);
    assert Trim(s) == s[k..e];
    var lead := s[..k];
    forall j | 0 <= j < |lead| ensures IsWhiteSpace(lead[j]) {
      assert lead[j] == s[j];
    }
    var trail := s[e..];
    forall j | 0 <= j < |trail| ensures IsWhiteSpace(trail[j]) {
      assert trail[j] == s[e + j];
    }
  }

  /** string.Split(sep) with no options: the pieces between separators, in
      order; n separators give n + 1 pieces (so "" gives [""]). */
  function Split(s: string, sep: char): (r: seq<string>)
    ensures |r| >= 1
    ensures forall i :: 0 <= i < |r| ==> sep !in r[i]
    decreases |s|
  {
    if |s| == 0 then [""]
    else
      var rest := Split(s[1..], sep);
      if s[0] == sep then [""] + rest
      else [[s[0]] + rest[0]] + rest[1..]
  }

  /** string.Join(sep, parts), the inverse of Split. */
  function Join(parts: seq<string>, sep: char): string {
    if |parts| == 0 then ""
    else if |parts| == 1 then parts[0]
    else parts[0] + [sep] + Join(parts[1..], sep)
  }

  /** Splitting loses nothing: joining the pieces back gives the input. */
  lemma {:induction false} JoinSplit(s: string, sep: char)
    ensures Join(Split(s, sep), sep) == s
  {
    if |s| > 0 {
      var rest := Split(s[1..], sep);
      JoinSplit(s[1..], sep);
      if s[0] == sep {
        assert Split(s, sep) == [""] + rest;
        assert ([""] + rest)[1..] == rest;
      } else {
        var r := Split(s, sep);
        assert r == [[s[0]] + rest[0]] + rest[1..];
        if |rest| == 1 {
          assert Join(r, sep) == [s[0]] + rest[0];
        } else {
          assert r[1..] == rest[1..];
          assert Join(rest, sep) == rest[0] + [sep] + Join(rest[1..], sep);
        }
      }
    }
  }

  /** Every character of every piece occurs in the input. */
  lemma {:induction false} SplitPiecesFromInput(s: string, sep: char)
    ensures forall p, i :: p in Split(s, sep) && 0 <= i < |p| ==> p[i] in s
  {
    if |s| > 0 {
      SplitPiecesFromInput(s[1..], sep);
      var rest := Split(s[1..], sep);
      forall p, i | p in Split(s, sep) && 0 <= i < |p| ensures p[i] in s {
        if s[0] == sep {
          assert p in rest;
          assert p[i] in s[1..];
        } else if p == [s[0]] + rest[0] {
          if i > 0 {
            assert p[i] == rest[0][i - 1];
            assert rest[0] in rest;
            assert p[i] in s[1..];
          }
        } else {
          assert p in rest[1..];
          assert p[i] in s[1..];
        }
      }
    }
  }

  /** The non-empty trimmed pieces, in order (StringSplitOptions.TrimEntries
      and RemoveEmptyEntries applied to each piece): a single piece gives its
      Trim, or nothing when it is blank, and TrimAndDropEmptyAppend extends
      this piece by piece. */
  function TrimAndDropEmpty(pieces: seq<string>): (r: seq<string>)
    ensures |r| <= |pieces|
  {
    if |pieces| == 0 then []
    else
      var t := Trim(pieces[0]);
      if t == [] then TrimAndDropEmpty(pieces[1..])
      else [t] + TrimAndDropEmpty(pieces[1..])
  }

  /** The tokens of a list of pieces are the tokens of its parts, in
      order. */
  lemma {:induction false} TrimAndDropEmptyAppend(a: seq<string>, b: seq<string>)
    ensures TrimAndDropEmpty(a + b) == TrimAndDropEmpty(a) + TrimAndDropEmpty(b)
    decreases |a|
  {
    if |a| == 0 {
      assert a + b == b;
    } else {
      var h := TokensOfPiece(a[0]);
      var ta := TrimAndDropEmpty(a[1..]);
      var tb := TrimAndDropEmpty(b);
      TrimAndDropEmptyAppend(a[1..], b);
      TokensOfHead(a);
      TokensOfHeadOfAppend(a, b);
      AppendAssoc(h, ta, tb);
    }
  }

  /** The tokens one piece contributes. */
  function TokensOfPiece(p: string): (r: seq<string>)
    ensures r == TrimAndDropEmpty([p])
    ensures r == (if IsBlank(p) then [] else [Trim(p)])
  {
    assert [p][1..] == [];
    if Trim(p) == [] then [] else [Trim(p)]
  }

  lemma TokensOfHead(s: seq<string>)
    requires |s| > 0
    ensures TrimAndDropEmpty(s) == TokensOfPiece(s[0]) + TrimAndDropEmpty(s[1..])
  {
  }

  lemma TokensOfHeadOfAppend(a: seq<string>, b: seq<string>)
    requires |a| > 0
    ensures TrimAndDropEmpty(a + b) == TokensOfPiece(a[0]) + TrimAndDropEmpty(a[1..] + b)
  {
    TokensOfHead(a + b);
    assert (a + b)[0] == a[0];
    assert (a + b)[1..] == a[1..] + b;
  }

  lemma AppendAssoc(h: seq<string>, x: seq<string>, y: seq<string>)
    ensures h + (x + y) == (h + x) + y
  {
  }

  /** Every token is non-empty and trimmed. */
  lemma {:induction false} TokensTrimmed(pieces: seq<string>)
    ensures forall i :: 0 <= i < |TrimAndDropEmpty(pieces)| ==>
      TrimAndDropEmpty(pieces)[i] != [] && IsTrimmed(TrimAndDropEmpty(pieces)[i])
    decreases |pieces|
  {
    if |pieces| > 0 {
      TokensTrimmed(pieces[1..]);
    }
  }

  /** A character that occurs in no piece occurs in no token. */
  lemma {:induction false} TokensAddNoCharacter(pieces: seq<string>, c: char)
    requires forall j :: 0 <= j < |pieces| ==> c !in pieces[j]
    ensures forall i :: 0 <= i < |TrimAndDropEmpty(pieces)| ==> c !in TrimAndDropEmpty(pieces)[i]
  {
    if |pieces| > 0 {
      TokensAddNoCharacter(pieces[1..], c);
      TrimAddsNoCharacter(pieces[0], c);
    }
  }

  /** Trim adds no character. */
  lemma TrimAddsNoCharacter(p: string, c: char)
    requires c !in p
    ensures c !in Trim(p)
  {
    var k := SkipBlanks(p, 0);
    var r := Trim(p);
    assert r == p[k..SkipBlanksBack(p, k, |p|)];
    forall i | 0 <= i < |r| ensures r[i] != c {
      assert r[i] == p[k + i];
    }
  }

  /** Pieces made of white space only leave no token. */
  lemma {:induction false} BlankPiecesDropped(pieces: seq<string>)
    requires forall j :: 0 <= j < |pieces| ==> IsBlank(pieces[j])
    ensures TrimAndDropEmpty(pieces) == []
  {
    if |pieces| > 0 {
      BlankPiecesDropped(pieces[1..]);
    }
  }

  /** s.Split(sep, TrimEntries | RemoveEmptyEntries). */
  function SplitTrimmed(s: string, sep: char): (r: seq<string>)
    ensures r == TrimAndDropEmpty(Split(s, sep))
    ensures forall i :: 0 <= i < |r| ==> r[i] != [] && IsTrimmed(r[i]) && sep !in r[i]
    ensures IsBlank(s) ==> r == []
  {
    var pieces := Split(s, sep);
    TokensAddNoCharacter(pieces, sep);
    TokensTrimmed(pieces);
    if IsBlank(s) then
      SplitPiecesFromInput(s, sep);
      assert forall j :: 0 <= j < |pieces| ==> IsBlank(pieces[j]) by {
        forall j, i | 0 <= j < |pieces| && 0 <= i < |pieces[j]| ensures IsWhiteSpace(pieces[j][i]) {
          assert pieces[j] in pieces;
          assert pieces[j][i] in s;
        }
      }
      BlankPiecesDropped(pieces);
      TrimAndDropEmpty(pieces)
    else TrimAndDropEmpty(pieces)
  }

  /** A string without the separator is one piece. */
  lemma {:induction false} SplitNoSeparator(s: string, sep: char)
    requires sep !in s
    ensures Split(s, sep) == [s]
    decreases |s|
  {
    if |s| > 0 {
      SplitNoSeparator(s[1..], sep);
      assert [s[0]] + s[1..] == s;
    }
  }

  /** The text before the first separator is the first piece, and the rest
      is split on its own. */
  lemma {:induction false} SplitAtSeparator(a: string, b: string, sep: char)
    requires sep !in a
    ensures Split(a + [sep] + b, sep) == [a] + Split(b, sep)
    decreases |a|
  {
    var s := a + [sep] + b;
    if |a| == 0 {
      assert s[1..] == b;
    } else {
      SplitAtSeparator(a[1..], b, sep);
      assert s[1..] == a[1..] + [sep] + b;
      assert [a[0]] + a[1..] == a;
    }
  }

  /** The temperament "Playful, Friendly" gives the tokens "Playful" and
      "Friendly". */
  lemma PlayfulFriendlyTokens()
    ensures SplitTrimmed("Playful, Friendly", ',') == ["Playful", "Friendly"]
  {
    PlayfulFriendlyPieces();
    TrimAndDropEmptyAppend(["Playful"], [" Friendly"]);
    PlayfulTrimmed();
    FriendlyTrimmed();
  }

  lemma PlayfulFriendlyPieces()
    ensures Split("Playful, Friendly", ',') == ["Playful"] + [" Friendly"]
  {
    PlayfulFriendlyText();
    SplitAtSeparator("Playful", " Friendly", ',');
    SplitNoSeparator(" Friendly", ',');
  }

  lemma PlayfulFriendlyText()
    ensures "Playful, Friendly" == "Playful" + [','] + " Friendly"
    ensures ',' !in "Playful" && ',' !in " Friendly"
  {
  }

  lemma PlayfulTrimmed()
    ensures !IsBlank("Playful") && Trim("Playful") == "Playful"
  {
    var a := "Playful";
    assert !IsWhiteSpace(a[0]) && !IsWhiteSpace(a[|a| - 1]);
  }

  lemma FriendlyTrimmed()
    ensures !IsBlank(" Friendly") && Trim(" Friendly") == "Friendly"
  {
    var b := " Friendly";
    assert SkipBlanks(b, 1) == 1;
    assert SkipBlanks(b, 0) == 1;
    assert SkipBlanksBack(b, 1, |b|) == |b|;
    assert b[1..] == "Friendly";
  }

  /** string.Length: the number of UTF-16 code units, where a character
      outside the Basic Multilingual Plane is a surrogate pair and counts
      twice. */
  function Utf16Length(s: string): (n: nat)
    ensures |s| <= n <= 2 * |s|
    decreases |s|
  {
    if |s| == 0 then 0
    else (if s[0] as int > 0xFFFF then 2 else 1) + Utf16Length(s[1..])
  }

  /** Without characters outside the Basic Multilingual Plane the length in
      code units is the number of characters; with only such characters it
      is twice that. */
  lemma {:induction false} Utf16LengthBounds(s: string)
    ensures (forall i :: 0 <= i < |s| ==> s[i] as int <= 0xFFFF) ==> Utf16Length(s) == |s|
    ensures (forall i :: 0 <= i < |s| ==> s[i] as int > 0xFFFF) ==> Utf16Length(s) == 2 * |s|
    decreases |s|
  {
    if |s| > 0 {
      Utf16LengthBounds(s[1..]);
      assert forall i :: 0 <= i < |s[1..]| ==> s[1..][i] == s[i + 1];
    }
  }

  /** The case fold of one character (ASCII letters). */
  function FoldChar(c: char): (r: char)
    ensures !('A' <= r <= 'Z')
    ensures r != c ==> 'A' <= c <= 'Z'
  {
    if 'A' <= c <= 'Z' then (c as int - 'A' as int + 'a' as int) as char else c
  }

  /** The case fold both comparisons of the core go through: two names are
      the same ignoring case exactly when their folds are equal. */
  function Fold(s: string): (r: string)
    ensures |r| == |s|
  {
    seq(|s|, i requires 0 <= i < |s| => FoldChar(s[i]))
  }

  /** Folding a folded string changes nothing. */
  lemma FoldIdempotent(s: string)
    ensures Fold(Fold(s)) == Fold(s)
  {
    var f := Fold(s);
    assert forall i :: 0 <= i < |f| ==> Fold(f)[i] == f[i];
  }

  /** Folding keeps the length in UTF-16 code units: it only maps ASCII
      letters to ASCII letters. */
  lemma {:induction false} FoldKeepsUtf16Length(s: string)
    ensures Utf16Length(Fold(s)) == Utf16Length(s)
    decreases |s|
  {
    if |s| > 0 {
      FoldKeepsUtf16Length(s[1..]);
      assert Fold(s)[1..] == Fold(s[1..]);
    }
  }

  predicate EqualsIgnoreCase(a: string, b: string) {
    Fold(a) == Fold(b)
  }

  /** `s` starts with `prefix` ignoring case; `prefix` is given in folded
      (lower-case) form. */
  predicate StartsWithIgnoreCase(s: string, prefix: string) {
    |prefix| <= |s| && Fold(s[..|prefix|]) == prefix
  }
}
