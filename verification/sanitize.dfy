/** The two filename sanitisers. `SanitizeAndStrip` is
    `sanitize_and_strip_filename`, defined identically in downloader.py and in
    converter.py; `SanitizeFilename` is the scraper's `sanitize_filename`, which
    has no qualifier removal and no trimming but truncates long names. Both
    start from the same three steps: percent-decoding, removal of the trailing
    noise token, and removal of the characters no file name may hold. */
module Sanitize {
  import opened Wrappers
  import opened Text
  import opened PosixPath

  // ---------------------------------------------------------------------
  // Percent-decoding (`urllib.parse.unquote`)
  // ---------------------------------------------------------------------

  predicate IsHexDigit(c: char) {
    ('0' <= c <= '9') || ('a' <= c <= 'f') || ('A' <= c <= 'F')
  }

  function HexValue(c: char): (v: nat)
    requires IsHexDigit(c)
    ensures v < 16
  {
    if '0' <= c <= '9' then c as int - '0' as int
    else if 'a' <= c <= 'f' then c as int - 'a' as int + 10
    else c as int - 'A' as int + 10
  }

  /** The upper-case hex digit of a value below 16. */
  function HexDigit(v: nat): (c: char)
    requires v < 16
    ensures IsHexDigit(c) && HexValue(c) == v
  {
    if v < 10 then ('0' as int + v) as char else ('A' as int + v - 10) as char
  }

  /** `%XX` with two hex digits becomes the character with that code; a `%`
      not followed by two hex digits stays as it is. */
  function Unquote(s: string): (r: string)
    ensures |r| <= |s|
    ensures '%' !in s ==> r == s
  {
    if s == [] then []
    else if s[0] == '%' && |s| >= 3 && IsHexDigit(s[1]) && IsHexDigit(s[2]) then
      [(16 * HexValue(s[1]) + HexValue(s[2])) as char] + Unquote(s[3..])
    else
      [s[0]] + Unquote(s[1..])
  }

  predicate AllLatin1(s: string) {
    forall i :: 0 <= i < |s| ==> s[i] as int < 256
  }

  /** Escapes every character as `%XX`: the reference inverse of `Unquote`. */
  function PercentEncode(s: string): (r: string)
    requires AllLatin1(s)
    ensures |r| == 3 * |s|
  {
    if s == [] then []
    else ['%', HexDigit(s[0] as int / 16), HexDigit(s[0] as int % 16)] + PercentEncode(s[1..])
  }

  /** Decoding undoes encoding, character by character. */
  lemma {:induction false} UnquoteInvertsPercentEncode(s: string)
    requires AllLatin1(s)
    ensures Unquote(PercentEncode(s)) == s
  {
    if s != [] {
      var code := s[0] as int;
      var hi, lo := HexDigit(code / 16), HexDigit(code % 16);
      var e := PercentEncode(s);
      assert e == ['%', hi, lo] + PercentEncode(s[1..]);
      assert e[0] == '%' && e[1] == hi && e[2] == lo;
      assert e[3..] == PercentEncode(s[1..]);
      assert (16 * HexValue(hi) + HexValue(lo)) as char == s[0] by {
        assert 16 * (code / 16) + code % 16 == code;
      }
      assert Unquote(e) == [s[0]] + Unquote(e[3..]);
      UnquoteInvertsPercentEncode(s[1..]);
    }
  }

  // ---------------------------------------------------------------------
  // The trailing noise token (`re.sub(r'_ImSM8O$', '', s)`)
  // ---------------------------------------------------------------------

  const NoiseToken: string := "_ImSM8O"

  /** `$` matches at the very end and also just before a final newline, so
      the token is removed in either position, and only there. */
  function StripNoiseSuffix(s: string): (r: string)
    ensures |r| <= |s|
    ensures EndsWith(s, NoiseToken) ==> r + NoiseToken == s
    ensures !EndsWith(s, NoiseToken) && EndsWith(s, NoiseToken + "\n") ==>
      |r| >= 1 && r[..|r| - 1] + NoiseToken + "\n" == s && r[|r| - 1] == '\n'
    ensures !EndsWith(s, NoiseToken) && !EndsWith(s, NoiseToken + "\n") ==> r == s
  {
    if EndsWith(s, NoiseToken) then s[..|s| - |NoiseToken|]
    else if EndsWith(s, NoiseToken + "\n") then s[..|s| - |NoiseToken| - 1] + "\n"
    else s
  }

  /** The token is kept wherever it is not at the end: only a trailing
      occurrence (possibly before a final newline) is removed. */
  lemma NoiseElsewhereKept(x: string, y: string)
    requires y != [] && y != "\n"
    requires !EndsWith(y, NoiseToken) && !EndsWith(y, NoiseToken + "\n")
    ensures StripNoiseSuffix(x + NoiseToken + y) == x + NoiseToken + y
  {
    NoTokenAtEnd(x, y);
    NoTokenBeforeNewline(x, y);
  }

  lemma NoTokenAtEnd(x: string, y: string)
    requires y != [] && !EndsWith(y, NoiseToken)
    ensures !EndsWith(x + NoiseToken + y, NoiseToken)
  {
    var s := x + NoiseToken + y;
    if |y| < |NoiseToken| {
      assert s[|s| - |NoiseToken|..][|NoiseToken| - |y| - 1] == s[|s| - |y| - 1] == NoiseToken[|NoiseToken| - 1];
      assert NoiseToken[|NoiseToken| - |y| - 1] != NoiseToken[|NoiseToken| - 1];
    } else {
      assert s[|s| - |NoiseToken|..] == y[|y| - |NoiseToken|..];
    }
  }

  lemma NoTokenBeforeNewline(x: string, y: string)
    requires y != [] && y != "\n" && !EndsWith(y, NoiseToken + "\n")
    ensures !EndsWith(x + NoiseToken + y, NoiseToken + "\n")
  {
    var s := x + NoiseToken + y;
    var t := NoiseToken + "\n";
    if |y| == 1 {
      assert s[|s| - 1] == y[0] && y == [y[0]];
      assert y[0] != '\n';
    } else if |y| < |t| {
      assert s[|s| - |t|..][|t| - |y| - 1] == s[|s| - |y| - 1] == NoiseToken[|NoiseToken| - 1];
      assert t[|t| - |y| - 1] == NoiseToken[|NoiseToken| - |y|];
      assert NoiseToken[|NoiseToken| - |y|] != NoiseToken[|NoiseToken| - 1];
    } else {
      assert s[|s| - |t|..] == y[|y| - |t|..];
    }
  }

  // ---------------------------------------------------------------------
  // Qualifier groups: `(Raw)` or `(Partial)` in any letter case, together
  // with the whitespace on both sides of it, removed wherever it occurs
  // ---------------------------------------------------------------------

  function LowerAscii(c: char): char {
    if 'A' <= c <= 'Z' then (c as int + 32) as char else c
  }

  /** `(Raw)` in any letter case starts at position `i` of `s`. */
  predicate RawAt(s: string, i: nat) {
    && i + 5 <= |s| && s[i] == '('
    && LowerAscii(s[i + 1]) == 'r' && LowerAscii(s[i + 2]) == 'a' && LowerAscii(s[i + 3]) == 'w'
    && s[i + 4] == ')'
  }

  /** `(Partial)` in any letter case starts at position `i` of `s`. */
  predicate PartialAt(s: string, i: nat) {
    && i + 9 <= |s| && s[i] == '('
    && LowerAscii(s[i + 1]) == 'p' && LowerAscii(s[i + 2]) == 'a' && LowerAscii(s[i + 3]) == 'r'
    && LowerAscii(s[i + 4]) == 't' && LowerAscii(s[i + 5]) == 'i' && LowerAscii(s[i + 6]) == 'a'
    && LowerAscii(s[i + 7]) == 'l' && s[i + 8] == ')'
  }

  /** `q` is exactly one qualifier group. */
  predicate IsQualifierGroup(q: string) {
    (|q| == 5 && RawAt(q, 0)) || (|q| == 9 && PartialAt(q, 0))
  }

  /** The length of the group at position `i` of `s`, if one starts there
      (the alternation tries `Raw` first). */
  function GroupAt(s: string, i: nat): (n: Option<nat>)
    ensures n.Some? ==> i < |s| && s[i] == '(' && i + n.value <= |s|
  {
    if RawAt(s, i) then Some(5)
    else if PartialAt(s, i) then Some(9)
    else None
  }

  /** Where the whitespace run starting at position `i` ends: a greedy `\s*`. */
  function SpacesFrom(s: string, i: nat): (j: nat)
    requires i <= |s|
    ensures i <= j <= |s|
    ensures j == |s| || !IsSpace(s[j])
    decreases |s| - i
  {
    if i == |s| || !IsSpace(s[i]) then i else SpacesFrom(s, i + 1)
  }

  /** The end of a match of the whole pattern at the start of `s`: whitespace,
      a group, whitespace. The group starts with `(`, so the leading `\s*`
      never gives back any of its run. */
  function QualifierMatch(s: string): (n: Option<nat>)
    ensures n.Some? ==> 0 < n.value <= |s|
  {
    var lead := SpacesFrom(s, 0);
    match GroupAt(s, lead)
    case None => None
    case Some(g) => Some(SpacesFrom(s, lead + g))
  }

  /** `re.sub` scans from left to right and removes every non-overlapping match. */
  function RemoveQualifiers(s: string): (r: string)
    ensures |r| <= |s|
  {
    if s == [] then []
    else match QualifierMatch(s)
      case Some(n) => RemoveQualifiers(s[n..])
      case None => [s[0]] + RemoveQualifiers(s[1..])
  }

  /** A whitespace run from `i` up to a non-space at `k` is what
      `SpacesFrom` finds. */
  lemma {:induction false} SpacesAcross(s: string, i: nat, k: nat)
    requires i <= k <= |s|
    requires forall j :: i <= j < k ==> IsSpace(s[j])
    requires k == |s| || !IsSpace(s[k])
    ensures SpacesFrom(s, i) == k
    decreases k - i
  {
    if i < k {
      SpacesAcross(s, i + 1, k);
    }
  }

  lemma {:induction false} SpacesStop(s: string, i: nat, k: nat)
    requires i <= k < |s| && !IsSpace(s[k])
    ensures SpacesFrom(s, i) <= k
    decreases k - i
  {
    if i < k && IsSpace(s[i]) {
      SpacesStop(s, i + 1, k);
    }
  }

  lemma ConsAppend(x: string, t: string)
    requires x != []
    ensures [x[0]] + (x[1..] + t) == x + t
  {
    assert [x[0]] + x[1..] == x;
  }

  /** No match can start inside such a prefix: the whitespace run from any
      point of it ends on one of its own characters, which is not `(`. */
  lemma NoMatchInPlainPrefix(x: string, rest: string)
    requires x != [] && '(' !in x && !IsSpace(x[|x| - 1])
    ensures QualifierMatch(x + rest) == None
  {
    var s := x + rest;
    assert s[|x| - 1] == x[|x| - 1];
    SpacesStop(s, 0, |x| - 1);
    var lead := SpacesFrom(s, 0);
    assert s[lead] == x[lead] && x[lead] in x;
  }

  /** A prefix without `(` that does not end in whitespace is copied as it is. */
  lemma {:induction false} PlainPrefixKept(x: string, rest: string)
    requires '(' !in x
    requires x == [] || !IsSpace(x[|x| - 1])
    ensures RemoveQualifiers(x + rest) == x + RemoveQualifiers(rest)
  {
    if x != [] {
      var s := x + rest;
      NoMatchInPlainPrefix(x, rest);
      assert s[1..] == x[1..] + rest;
      assert x[1..] == [] || x[1..][|x[1..]| - 1] == x[|x| - 1];
      assert forall c :: c in x[1..] ==> c in x;
      PlainPrefixKept(x[1..], rest);
      ConsAppend(x, RemoveQualifiers(rest));
      assert RemoveQualifiers(s) == [s[0]] + (x[1..] + RemoveQualifiers(rest));
    } else {
      assert x + rest == rest;
    }
  }

  /** A group found in the text is found whatever surrounds it. */
  lemma GroupIn(s: string, i: nat, q: string)
    requires IsQualifierGroup(q) && i + |q| <= |s| && s[i..i + |q|] == q
    ensures GroupAt(s, i) == Some(|q|)
  {
    forall k | 0 <= k < |q|
      ensures s[i + k] == q[k]
    {
      assert s[i..i + |q|][k] == s[i + k];
    }
  }

  /** The pattern matches the leading whitespace, the group and the
      whitespace after it. */
  lemma MatchOfGroup(w1: string, q: string, w2: string, y: string)
    requires AllSpace(w1) && AllSpace(w2) && IsQualifierGroup(q)
    requires y == [] || !IsSpace(y[0])
    ensures QualifierMatch(w1 + q + w2 + y) == Some(|w1| + |q| + |w2|)
  {
    var s := w1 + q + w2 + y;
    var a, b := |w1|, |w1| + |q|;
    assert s[a] == q[0];
    LeadingRun(w1, q + w2 + y);
    assert s == w1 + (q + w2 + y);
    assert s[a..b] == q;
    GroupIn(s, a, q);
    assert s == (w1 + q) + w2 + y;
    TrailingRun(w1 + q, w2, y);
  }

  lemma LeadingRun(w: string, t: string)
    requires AllSpace(w) && (t == [] || !IsSpace(t[0]))
    ensures SpacesFrom(w + t, 0) == |w|
  {
    var s := w + t;
    assert forall j :: 0 <= j < |w| ==> s[j] == w[j];
    SpacesAcross(s, 0, |w|);
  }

  lemma TrailingRun(x: string, w: string, y: string)
    requires AllSpace(w) && (y == [] || !IsSpace(y[0]))
    ensures SpacesFrom(x + w + y, |x|) == |x| + |w|
  {
    var s := x + w + y;
    assert forall j :: |x| <= j < |x| + |w| ==> s[j] == w[j - |x|];
    assert |x| + |w| < |s| ==> s[|x| + |w|] == y[0];
    SpacesAcross(s, |x|, |x| + |w|);
  }

  /** A qualifier group is removed together with the whitespace on both sides
      of it, and the text before it is kept. */
  lemma QualifierGroupRemoved(x: string, w1: string, q: string, w2: string, y: string)
    requires '(' !in x && (x == [] || !IsSpace(x[|x| - 1]))
    requires AllSpace(w1) && AllSpace(w2) && IsQualifierGroup(q)
    requires y == [] || !IsSpace(y[0])
    ensures RemoveQualifiers(x + (w1 + q + w2 + y)) == x + RemoveQualifiers(y)
  {
    var rest := w1 + q + w2 + y;
    PlainPrefixKept(x, rest);
    MatchOfGroup(w1, q, w2, y);
    var n := |w1| + |q| + |w2|;
    assert rest[n..] == y;
    RemoveAtMatch(rest, n);
  }

  /** A match at the start is dropped and the scan goes on after it. */
  lemma RemoveAtMatch(s: string, n: nat)
    requires QualifierMatch(s) == Some(n)
    ensures RemoveQualifiers(s) == RemoveQualifiers(s[n..])
  {
  }

  /** Without any `(`, nothing matches. */
  lemma {:induction false} NoParenKept(s: string)
    requires '(' !in s
    ensures RemoveQualifiers(s) == s
  {
    if s != [] {
      var lead := SpacesFrom(s, 0);
      if lead < |s| {
        assert s[lead] in s;
      }
      assert QualifierMatch(s) == None;
      assert forall c :: c in s[1..] ==> c in s;
      NoParenKept(s[1..]);
    }
  }

  // ---------------------------------------------------------------------
  // Forbidden characters (`re.sub(r'[\\/*?:"<>|]', '', s)`)
  // ---------------------------------------------------------------------

  predicate Forbidden(c: char) {
    c == '\\' || c == '/' || c == '*' || c == '?' || c == ':' || c == '"' || c == '<' || c == '>' || c == '|'
  }

  predicate NoForbidden(s: string) {
    forall i :: 0 <= i < |s| ==> !Forbidden(s[i])
  }

  function RemoveForbidden(s: string): (r: string)
    ensures |r| <= |s| && NoForbidden(r)
    ensures forall c :: c in r <==> c in s && !Forbidden(c)
    ensures NoForbidden(s) ==> r == s
  {
    if s == [] then []
    else if Forbidden(s[0]) then RemoveForbidden(s[1..])
    else [s[0]] + RemoveForbidden(s[1..])
  }

  /** The substitution works character by character: the text of a
      concatenation is the concatenation of the parts' texts, so the other
      characters keep their order and number. */
  lemma {:induction false} RemoveForbiddenAppend(a: string, b: string)
    ensures RemoveForbidden(a + b) == RemoveForbidden(a) + RemoveForbidden(b)
  {
    if a == [] {
      assert a + b == b;
    } else {
      assert (a + b)[0] == a[0];
      assert (a + b)[1..] == a[1..] + b;
      RemoveForbiddenAppend(a[1..], b);
    }
  }

  /** A single character is dropped exactly when it is forbidden. */
  lemma RemoveForbiddenSingle(c: char)
    ensures RemoveForbidden([c]) == if Forbidden(c) then [] else [c]
  {
    assert [c][1..] == [];
  }

  // ---------------------------------------------------------------------
  // The downloader's (and converter's) sanitiser
  // ---------------------------------------------------------------------

  /** `sanitize_and_strip_filename`: decode, then clean the decoded text. */
  function SanitizeAndStrip(name: string): (r: string)
    ensures NoForbidden(r)
    ensures |r| <= |name|
  {
    CleanDecoded(Unquote(name))
  }

  /** The three substitutions that follow the decoding, and the trimming. */
  function CleanDecoded(d: string): (r: string)
    ensures NoForbidden(r)
    ensures |r| <= |d|
  {
    RemoveForbidden(Strip(RemoveQualifiers(StripNoiseSuffix(d))))
  }

  /** Text with nothing to remove or trim comes out of the cleaning as it went in. */
  lemma CleanTextKept(d: string)
    requires '(' !in d && NoForbidden(d)
    requires d == [] || (!IsSpace(d[0]) && !IsSpace(d[|d| - 1]))
    requires !EndsWith(d, NoiseToken)
    ensures CleanDecoded(d) == d
  {
    if d != [] {
      assert !EndsWith(d, NoiseToken + "\n") by {
        assert d[|d| - 1] != '\n';
      }
    }
    NoParenKept(d);
  }

  /** A name that needs no decoding, no stripping and no removal is returned
      as it is. */
  lemma CleanNameKept(name: string)
    requires '%' !in name && '(' !in name && NoForbidden(name)
    requires name == [] || (!IsSpace(name[0]) && !IsSpace(name[|name| - 1]))
    requires !EndsWith(name, NoiseToken)
    ensures SanitizeAndStrip(name) == name
  {
    CleanTextKept(name);
  }

  /** `%2541` decodes to `%41`: the escape of `%` followed by `41`. */
  lemma DecodeEscapedPercent()
    ensures Unquote("%2541") == "%41"
  {
    var s := "%2541";
    assert s[1] == '2' && s[2] == '5';
    assert HexValue('2') == 2 && HexValue('5') == 5;
    assert s[3..] == "41";
  }

  /** `%41` has nothing to remove or trim. */
  lemma EscapeTextClean()
    ensures CleanDecoded("%41") == "%41"
  {
    var d := "%41";
    assert d[0] == '%' && d[2] == '1';
    assert '(' !in d && NoForbidden(d);
    CleanTextKept(d);
  }

  /** Nor has `A`. */
  lemma LetterClean()
    ensures CleanDecoded("A") == "A"
  {
    CleanTextKept("A");
  }

  /** The sanitiser is not idempotent: decoding can produce a new escape,
      which a second pass decodes again. */
  lemma DecodingNotIdempotent()
    ensures SanitizeAndStrip("%2541") == "%41"
    ensures SanitizeAndStrip("%41") == "A"
  {
    DecodeEscapedPercent();
    DecodeA();
    EscapeTextClean();
    LetterClean();
  }

  /** `%41` decodes to `A`. */
  lemma DecodeA()
    ensures Unquote("%41") == "A"
  {
    var s := "%41";
    assert s[1] == '4' && s[2] == '1';
    assert HexValue('4') == 4 && HexValue('1') == 1;
    assert s[3..] == [];
    assert (65 as char) == 'A';
  }

  /** `(Raw)` is a qualifier group. */
  lemma RawIsGroup()
    ensures IsQualifierGroup("(Raw)")
  {
    assert LowerAscii('R') == 'r';
  }

  /** A lone group is removed entirely. */
  lemma RemoveGroupAlone()
    ensures RemoveQualifiers("(Raw)") == ""
  {
    RawIsGroup();
    assert AllSpace("");
    QualifierGroupRemoved("", "", "(Raw)", "", "");
    assert "" + ("" + "(Raw)" + "" + "") == "(Raw)";
  }

  /** No match starts at the first character of `(Ra(Raw)w)`. */
  lemma NestedGroupMatchesNothingFirst()
    ensures QualifierMatch("(Ra(Raw)w)") == None
  {
    var s := "(Ra(Raw)w)";
    assert SpacesFrom(s, 0) == 0 by { assert !IsSpace(s[0]); }
    assert s[4] == 'R' && s[8] == 'w';
  }

  /** The group inside `Ra(Raw)w)` is removed and the text around it kept. */
  lemma InnerGroupRemoved()
    ensures RemoveQualifiers("Ra(Raw)w)") == "Ra" + RemoveQualifiers("w)")
  {
    RawIsGroup();
    assert AllSpace("");
    assert "Ra(Raw)w)" == "Ra" + ("" + "(Raw)" + "" + "w)");
    QualifierGroupRemoved("Ra", "", "(Raw)", "", "w)");
  }

  /** `w)` holds no group. */
  lemma TailKept()
    ensures RemoveQualifiers("w)") == "w)"
  {
    NoParenKept("w)");
  }

  /** The first character of `(Ra(Raw)w)` is copied. */
  lemma FirstCharCopied()
    ensures RemoveQualifiers("(Ra(Raw)w)") == "(" + RemoveQualifiers("Ra(Raw)w)")
  {
    var s := "(Ra(Raw)w)";
    NestedGroupMatchesNothingFirst();
    assert s[1..] == "Ra(Raw)w)";
  }

  /** Removing the inner group of `(Ra(Raw)w)` leaves the group `(Raw)`. */
  lemma NestedGroupReforms()
    ensures RemoveQualifiers("(Ra(Raw)w)") == "(Raw)"
  {
    FirstCharCopied();
    InnerGroupRemoved();
    TailKept();
    NestedPiecesJoin();
  }

  lemma NestedPiecesJoin()
    ensures "(" + ("Ra" + "w)") == "(Raw)"
  {
    assert "Ra" + "w)" == "Raw)";
  }

  /** Text without whitespace at either end is not changed by `Strip`. */
  lemma StripKept(s: string)
    requires s == [] || (!IsSpace(s[0]) && !IsSpace(s[|s| - 1]))
    ensures Strip(s) == s
  {
    if s != [] {
      assert SpaceRun(s) == 0;
      assert TrimEnd(s) == s;
    }
  }

  /** The nested name does not end with the noise token. */
  lemma NestedNameNoNoise()
    ensures StripNoiseSuffix("(Ra(Raw)w)") == "(Ra(Raw)w)"
  {
    var s := "(Ra(Raw)w)";
    assert s[|s| - 1] == ')';
    assert !EndsWith(s, NoiseToken) by { assert s[|s| - 1] != NoiseToken[|NoiseToken| - 1]; }
    assert !EndsWith(s, NoiseToken + "\n") by { assert s[|s| - 1] != '\n'; }
  }

  /** Cleaning the nested name leaves `(Raw)`. */
  lemma NestedNameCleaned()
    ensures CleanDecoded("(Ra(Raw)w)") == "(Raw)"
  {
    NestedNameNoNoise();
    NestedGroupReforms();
    GroupTextSettled();
    CleanedAfterRemoval("(Ra(Raw)w)", "(Raw)");
  }

  /** `(Raw)` has no whitespace at either end and no forbidden character. */
  lemma GroupTextSettled()
    ensures !IsSpace("(Raw)"[0]) && !IsSpace("(Raw)"[4]) && NoForbidden("(Raw)")
  {
    var r := "(Raw)";
    assert r[0] == '(' && r[4] == ')';
  }

  /** Cleaning text that carries no noise token, and whose groups leave a
      trimmed text without forbidden characters, gives that text. */
  lemma CleanedAfterRemoval(d: string, r: string)
    requires StripNoiseSuffix(d) == d && RemoveQualifiers(d) == r
    requires r == [] || (!IsSpace(r[0]) && !IsSpace(r[|r| - 1]))
    requires NoForbidden(r)
    ensures CleanDecoded(d) == r
  {
    StripKept(r);
  }

  /** Cleaning `(Raw)` leaves nothing. */
  lemma GroupCleaned()
    ensures CleanDecoded("(Raw)") == ""
  {
    var d := "(Raw)";
    assert !EndsWith(d, NoiseToken) && !EndsWith(d, NoiseToken + "\n") by {
      assert d[|d| - 1] != NoiseToken[|NoiseToken| - 1] && d[|d| - 1] != '\n';
    }
    RemoveGroupAlone();
    CleanedAfterRemoval(d, "");
  }

  /** Nor is it idempotent on groups: removing one group can join the text
      around it into another, which a second pass removes. */
  lemma GroupRemovalNotIdempotent()
    ensures SanitizeAndStrip("(Ra(Raw)w)") == "(Raw)"
    ensures SanitizeAndStrip("(Raw)") == ""
  {
    var a, b := "(Ra(Raw)w)", "(Raw)";
    assert '%' !in a && '%' !in b;
    NestedNameCleaned();
    GroupCleaned();
  }

  // ---------------------------------------------------------------------
  // The scraper's sanitiser
  // ---------------------------------------------------------------------

  /** Python's `s[:k]`: a negative `k` counts from the end, and the bound is
      clamped to the string. */
  function SliceTo(s: string, k: int): (r: string)
    ensures k >= 0 ==> r == s[..if k <= |s| then k else |s|]
    ensures k < 0 ==> r == s[..if |s| + k >= 0 then |s| + k else 0]
  {
    if k >= |s| then s
    else if k >= 0 then s[..k]
    else if |s| + k >= 0 then s[..|s| + k]
    else []
  }

  /** The scraper's name before any truncation: decoded, without the trailing
      noise token and without forbidden characters. */
  function ScrapedName(filename: string): (r: string)
    ensures NoForbidden(r) && '/' !in r
    ensures |r| <= |filename|
  {
    RemoveForbidden(StripNoiseSuffix(Unquote(filename)))
  }

  const DefaultMaxLength: int := 255

  /** Cutting the stem keeps the name free of forbidden characters. */
  lemma CutKeepsNoForbidden(stem: string, ext: string, k: int)
    requires NoForbidden(stem + ext)
    ensures NoForbidden(SliceTo(stem, k) + ext)
  {
    var r := SliceTo(stem, k) + ext;
    forall i | 0 <= i < |r|
      ensures !Forbidden(r[i])
    {
      if i < |r| - |ext| {
        assert r[i] == (stem + ext)[i];
      } else {
        assert r[i] == (stem + ext)[|stem| + i - (|r| - |ext|)];
      }
    }
  }

  /** The stem cut to `k` characters (Python's `stem[:k]`) followed by the
      whole extension. */
  function CutName(stem: string, ext: string, k: int): (r: string)
    requires NoForbidden(stem + ext)
    ensures NoForbidden(r)
    ensures EndsWith(r, ext) && r[..|r| - |ext|] == SliceTo(stem, k)
  {
    CutKeepsNoForbidden(stem, ext, k);
    var r := SliceTo(stem, k) + ext;
    assert r[..|r| - |ext|] == SliceTo(stem, k);
    r
  }

  /** `sanitize_filename`: a name longer than `maxLength` keeps its extension
      and loses the end of its stem. */
  function SanitizeFilename(filename: string, maxLength: int := DefaultMaxLength): (r: string)
    ensures NoForbidden(r)
    ensures |ScrapedName(filename)| <= maxLength ==> r == ScrapedName(filename)
  {
    var cleaned := ScrapedName(filename);
    if |cleaned| > maxLength then
      var (stem, ext) := SplitExt(cleaned);
      CutName(stem, ext, maxLength - |ext|)
    else
      cleaned
  }

  /** A name over the limit keeps its whole extension, after its stem cut to
      what the limit leaves for it. */
  lemma TruncationKeepsExtension(filename: string, maxLength: int)
    requires |ScrapedName(filename)| > maxLength
    ensures var (stem, ext) := SplitExt(ScrapedName(filename));
      var r := SanitizeFilename(filename, maxLength);
      && EndsWith(r, ext)
      && r[..|r| - |ext|] == SliceTo(stem, maxLength - |ext|)
  {
  }

  /** A truncated name is exactly `maxLength` long when its extension fits. */
  lemma TruncatedToLimit(filename: string, maxLength: int)
    requires |ScrapedName(filename)| > maxLength
    requires |SplitExt(ScrapedName(filename)).1| <= maxLength
    ensures |SanitizeFilename(filename, maxLength)| == maxLength
  {
    var (stem, ext) := SplitExt(ScrapedName(filename));
    assert |stem| + |ext| > maxLength;
  }

  /** An extension longer than `maxLength` is kept whole, so the truncated
      name is then longer than `maxLength`. */
  lemma LongExtensionExceedsLimit(filename: string, maxLength: int)
    requires |ScrapedName(filename)| > maxLength
    requires |SplitExt(ScrapedName(filename)).1| > maxLength
    ensures |SanitizeFilename(filename, maxLength)| > maxLength
  {
  }

  /** A short name with nothing to decode or remove is returned as it is,
      whatever groups it holds: this sanitiser removes no qualifier. */
  lemma ShortPlainNameKept(filename: string, maxLength: int)
    requires '%' !in filename && NoForbidden(filename)
    requires !EndsWith(filename, NoiseToken) && !EndsWith(filename, NoiseToken + "\n")
    requires |filename| <= maxLength
    ensures SanitizeFilename(filename, maxLength) == filename
  {
  }

  /** The scraper's sanitiser is not idempotent either: `%2541` becomes
      `%41`, which a second pass decodes to `A`. */
  lemma ScrapedDecodingNotIdempotent()
    ensures SanitizeFilename("%2541") == "%41"
    ensures SanitizeFilename("%41") == "A"
  {
    DecodeEscapedPercent();
    DecodeA();
    assert StripNoiseSuffix("%41") == "%41" by {
      assert !EndsWith("%41", NoiseToken) && !EndsWith("%41", NoiseToken + "\n");
    }
    assert StripNoiseSuffix("A") == "A" by {
      assert !EndsWith("A", NoiseToken) && !EndsWith("A", NoiseToken + "\n");
    }
    assert NoForbidden("%41") && NoForbidden("A");
  }

  /** The two sanitisers differ on qualifier groups. */
  lemma SanitisersDifferOnGroups()
    ensures SanitizeFilename("(Raw)") == "(Raw)"
    ensures SanitizeAndStrip("(Raw)") == ""
  {
    var g := "(Raw)";
    assert NoForbidden(g);
    ShortPlainNameKept(g, DefaultMaxLength);
    assert Unquote(g) == g;
    GroupCleaned();
  }
}
