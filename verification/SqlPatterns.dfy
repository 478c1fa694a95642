/** The regular expressions of the six rules, with a declarative meaning: the scanners of SqlRewrite find
    exactly their longest matches, and a replace-all is a cut of the statement into those matches and the
    characters between them. */
module SqlPatterns {
  import opened Text
  import opened SqlRewrite

  datatype Range = Range(low: char, high: char)

  /** A pattern, part by part. */
  datatype Regex =
    | End
    | Edge(next: Regex)                    // \b
    | One(ranges: seq<Range>, next: Regex)  // [...]
    | Many(ranges: seq<Range>, next: Regex) // [...]*
    | Spelled(word: string, next: Regex)   // a text under (?i)

  const DIGIT := [Range('0', '9')]
  const NAME_START := [Range('a', 'z'), Range('A', 'Z'), Range('_', '_')]
  const WORD := [Range('0', '9'), Range('A', 'Z'), Range('a', 'z'), Range('_', '_')]
  const SPACE := [Range('\t', '\n'), Range('\U{000C}', '\r'), Range(' ', ' ')]

  predicate Within(c: char, r: Range) {
    r.low <= c <= r.high
  }

  predicate InClass(c: char, ranges: seq<Range>) {
    exists k :: 0 <= k < |ranges| && Within(c, ranges[k])
  }

  function Only(c: char): seq<Range> {
    [Range(c, c)]
  }

  /** The patterns as the source writes them. */
  function Pattern(r: Rule): Regex {
    match r
    case Placeholder => One(Only('$'), One(DIGIT, Many(DIGIT, End)))
    case Cast => One(Only(':'), One(Only(':'), One(NAME_START, Many(WORD, End))))
    case Now => Edge(Spelled("now()", End))
    case ILike => One(SPACE, Spelled("ilike", One(SPACE, End)))
    case NotDistinct => Edge(Spelled("is not distinct from", Edge(End)))
    case Distinct => Edge(Spelled("is distinct from", Edge(End)))
  }

  ghost predicate AllIn(s: string, i: nat, j: nat, ranges: seq<Range>) {
    i <= j <= |s| && forall k :: i <= k < j ==> InClass(s[k], ranges)
  }

  /** The pattern matches the text of s from i to j. */
  ghost predicate Matches(re: Regex, s: string, i: nat, j: nat) {
    i <= |s| &&
    match re
    case End => i == j
    case Edge(next) => Boundary(s, i) && Matches(next, s, i, j)
    case One(ranges, next) => i < |s| && InClass(s[i], ranges) && Matches(next, s, i + 1, j)
    case Many(ranges, next) => exists m :: AllIn(s, i, m, ranges) && Matches(next, s, m, j)
    case Spelled(word, next) => MatchesAt(s, i, word) && Matches(next, s, i + |word|, j)
  }

  /** The match at i that a regular-expression engine takes: the longest. */
  ghost predicate Takes(r: Rule, s: string, i: nat, j: nat) {
    Matches(Pattern(r), s, i, j) && forall k: nat :: Matches(Pattern(r), s, i, k) ==> k <= j
  }

  ghost predicate NoneAt(r: Rule, s: string, i: nat) {
    forall j: nat :: !Matches(Pattern(r), s, i, j)
  }

  // ---- The classes ----

  lemma Classes(c: char)
    ensures InClass(c, DIGIT) <==> IsDigit(c)
    ensures InClass(c, NAME_START) <==> IsNameStart(c)
    ensures InClass(c, WORD) <==> IsWord(c)
    ensures InClass(c, SPACE) <==> IsSpace(c)
    ensures forall d :: InClass(c, Only(d)) <==> c == d
  {
    assert Within(c, DIGIT[0]) <==> IsDigit(c);
    assert IsNameStart(c) ==> Within(c, NAME_START[0]) || Within(c, NAME_START[1]) || Within(c, NAME_START[2]);
    assert IsWord(c) ==> Within(c, WORD[0]) || Within(c, WORD[1]) || Within(c, WORD[2]) || Within(c, WORD[3]);
    assert IsSpace(c) ==> Within(c, SPACE[0]) || Within(c, SPACE[1]) || Within(c, SPACE[2]);
    forall d ensures InClass(c, Only(d)) <==> c == d {
      assert Within(c, Only(d)[0]) <==> c == d;
    }
  }

  // ---- The scanners find the longest matches ----

  /** A run of digits or word characters ends at any place up to where the scanner stops. */
  lemma RunOfDigits(s: string, i: nat, j: nat)
    requires i <= |s|
    ensures Matches(Many(DIGIT, End), s, i, j) <==> i <= j <= DigitsEnd(s, i)
  {
    var e := DigitsEnd(s, i);
    forall k | 0 <= k < |s| ensures InClass(s[k], DIGIT) <==> IsDigit(s[k]) {
      Classes(s[k]);
    }
    if i <= j <= e {
      assert AllIn(s, i, j, DIGIT) && Matches(End, s, j, j);
    }
  }

  lemma RunOfWordChars(s: string, i: nat, j: nat)
    requires i <= |s|
    ensures Matches(Many(WORD, End), s, i, j) <==> i <= j <= WordEnd(s, i)
  {
    var e := WordEnd(s, i);
    forall k | 0 <= k < |s| ensures InClass(s[k], WORD) <==> IsWord(s[k]) {
      Classes(s[k]);
    }
    if i <= j <= e {
      assert AllIn(s, i, j, WORD) && Matches(End, s, j, j);
    }
  }

  lemma PlaceholderMatches(s: string, i: nat, j: nat)
    requires i < |s|
    ensures Matches(Pattern(Placeholder), s, i, j) <==>
      i + 1 < j <= i + MatchLen(Placeholder, s, i)
  {
    Classes(s[i]);
    if i + 1 < |s| {
      Classes(s[i + 1]);
      RunOfDigits(s, i + 2, j);
      assert IsDigit(s[i + 1]) ==> DigitsEnd(s, i + 1) == DigitsEnd(s, i + 2);
    }
  }

  lemma CastMatches(s: string, i: nat, j: nat)
    requires i < |s|
    ensures Matches(Pattern(Cast), s, i, j) <==> i + 2 < j <= i + MatchLen(Cast, s, i)
  {
    var name := One(NAME_START, Many(WORD, End));
    assert Matches(Pattern(Cast), s, i, j) <==> InClass(s[i], Only(':')) && Matches(One(Only(':'), name), s, i + 1, j);
    Classes(s[i]);
    if i + 1 < |s| {
      assert Matches(One(Only(':'), name), s, i + 1, j) <==> InClass(s[i + 1], Only(':')) && Matches(name, s, i + 2, j);
      Classes(s[i + 1]);
      if i + 2 >= |s| {
        assert !Matches(name, s, i + 2, j);
      } else {
        Classes(s[i + 2]);
        RunOfWordChars(s, i + 3, j);
        assert Matches(name, s, i + 2, j) <==> IsNameStart(s[i + 2]) && i + 3 <= j <= WordEnd(s, i + 3);
      }
    }
  }

  lemma WordMatches(r: Rule, s: string, i: nat, j: nat)
    requires i < |s| && (r == Now || r == ILike || r == NotDistinct || r == Distinct)
    ensures Matches(Pattern(r), s, i, j) <==> MatchLen(r, s, i) > 0 && j == i + MatchLen(r, s, i)
  {
    match r
    case Now =>
      assert Matches(Pattern(r), s, i, j) <==> Boundary(s, i) && Matches(Spelled("now()", End), s, i, j);
      if i + 5 <= |s| {
        assert Matches(End, s, i + 5, j) <==> i + 5 == j;
      }
    case ILike =>
      assert Matches(Pattern(r), s, i, j) <==> InClass(s[i], SPACE) && Matches(Spelled("ilike", One(SPACE, End)), s, i + 1, j);
      Classes(s[i]);
      if i + 6 < |s| {
        Classes(s[i + 6]);
        assert Matches(One(SPACE, End), s, i + 6, j) <==> IsSpace(s[i + 6]) && j == i + 7;
      }
    case NotDistinct =>
      assert Matches(Pattern(r), s, i, j) <==> Boundary(s, i) && Matches(Spelled("is not distinct from", Edge(End)), s, i, j);
      if i + 20 <= |s| {
        assert Matches(Edge(End), s, i + 20, j) <==> Boundary(s, i + 20) && i + 20 == j;
      }
    case Distinct =>
      assert Matches(Pattern(r), s, i, j) <==> Boundary(s, i) && Matches(Spelled("is distinct from", Edge(End)), s, i, j);
      if i + 16 <= |s| {
        assert Matches(Edge(End), s, i + 16, j) <==> Boundary(s, i + 16) && i + 16 == j;
      }
  }

  /** A scanner finds a match exactly where the pattern has one, and takes the longest. */
  lemma ScannerTakesLongestMatch(r: Rule, s: string, i: nat)
    requires i < |s|
    ensures MatchLen(r, s, i) > 0 ==> Takes(r, s, i, i + MatchLen(r, s, i))
    ensures MatchLen(r, s, i) == 0 ==> NoneAt(r, s, i)
  {
    forall j: nat ensures Matches(Pattern(r), s, i, j) ==> i < j <= i + MatchLen(r, s, i) {
      MatchesUpTo(r, s, i, j);
    }
    MatchesUpTo(r, s, i, i + MatchLen(r, s, i));
  }

  lemma MatchesUpTo(r: Rule, s: string, i: nat, j: nat)
    requires i < |s|
    ensures Matches(Pattern(r), s, i, j) ==> i < j <= i + MatchLen(r, s, i)
    ensures MatchLen(r, s, i) > 0 && j == i + MatchLen(r, s, i) ==> Matches(Pattern(r), s, i, j)
  {
    if r == Placeholder {
      PlaceholderMatches(s, i, j);
    } else if r == Cast {
      CastMatches(s, i, j);
    } else {
      WordMatches(r, s, i, j);
    }
  }

  // ---- Replace-all ----

  datatype Piece = Kept(c: char) | Hit(text: string)

  /** From i on s is cut, left to right, into the matches of the rule and the characters at which none starts. */
  ghost predicate Cut(r: Rule, s: string, i: nat, pieces: seq<Piece>)
    decreases |pieces|
  {
    if pieces == [] then i == |s|
    else if i >= |s| then false
    else
      match pieces[0]
      case Kept(c) => c == s[i] && NoneAt(r, s, i) && Cut(r, s, i + 1, pieces[1..])
      case Hit(text) =>
        text != "" && i + |text| <= |s| && text == s[i..i + |text|] && Takes(r, s, i, i + |text|) && Cut(r, s, i + |text|, pieces[1..])
  }

  /** The text with every match replaced. */
  function Replaced(rep: string -> string, pieces: seq<Piece>): string {
    if pieces == [] then ""
    else (if pieces[0].Kept? then [pieces[0].c] else rep(pieces[0].text)) + Replaced(rep, pieces[1..])
  }

  ghost predicate Scans(r: Rule, s: string, len: nat -> nat) {
    forall i: nat :: i < |s| ==> len(i) == MatchLen(r, s, i)
  }

  /** A piece of a cut is what the scanner finds there. */
  lemma PieceIsScanned(r: Rule, s: string, len: nat -> nat, i: nat, pieces: seq<Piece>)
    requires Cut(r, s, i, pieces) && pieces != [] && Scans(r, s, len)
    ensures i < |s| && (pieces[0].Kept? ==> pieces[0].c == s[i])
    ensures Cut(r, s, if pieces[0].Kept? then i + 1 else i + |pieces[0].text|, pieces[1..])
    ensures pieces[0].Kept? <==> len(i) == 0
    ensures pieces[0].Hit? ==> |pieces[0].text| == len(i) && i + len(i) <= |s| && pieces[0].text == s[i..i + len(i)]
  {
    ScannerTakesLongestMatch(r, s, i);
  }

  /** The pieces are those of a scan with the given match lengths. */
  ghost predicate Scanned(s: string, len: nat -> nat, i: nat, pieces: seq<Piece>)
    decreases |pieces|
  {
    if pieces == [] then i == |s|
    else
      && i < |s|
      && (pieces[0].Kept? ==> len(i) == 0 && pieces[0].c == s[i] && Scanned(s, len, i + 1, pieces[1..]))
      && (pieces[0].Hit? ==> 0 < len(i) <= |s| - i && pieces[0].text == s[i..i + len(i)] && Scanned(s, len, i + len(i), pieces[1..]))
  }

  lemma {:induction false} CutIsScanned(r: Rule, s: string, len: nat -> nat, i: nat, pieces: seq<Piece>)
    requires Cut(r, s, i, pieces) && Scans(r, s, len)
    ensures Scanned(s, len, i, pieces)
    decreases |pieces|
  {
    if pieces != [] {
      PieceIsScanned(r, s, len, i, pieces);
      CutIsScanned(r, s, len, if pieces[0].Kept? then i + 1 else i + |pieces[0].text|, pieces[1..]);
    }
  }

  lemma {:induction false} ScannedIsReplaced(s: string, len: nat -> nat, rep: string -> string, i: nat, pieces: seq<Piece>)
    requires Scanned(s, len, i, pieces)
    ensures i <= |s| && ReplaceBy(s, len, rep, i) == Replaced(rep, pieces)
    decreases |pieces|
  {
    if pieces != [] {
      ScannedIsReplaced(s, len, rep, if pieces[0].Kept? then i + 1 else i + len(i), pieces[1..]);
    }
  }

  lemma {:induction false} SomeCut(r: Rule, s: string, i: nat) returns (pieces: seq<Piece>)
    requires i <= |s|
    ensures Cut(r, s, i, pieces)
    decreases |s| - i
  {
    if i == |s| {
      return [];
    }
    ScannerTakesLongestMatch(r, s, i);
    var n := MatchLen(r, s, i);
    if n == 0 {
      var rest := SomeCut(r, s, i + 1);
      pieces := [Kept(s[i])] + rest;
      assert pieces[1..] == rest;
    } else {
      var rest := SomeCut(r, s, i + n);
      pieces := [Hit(s[i..i + n])] + rest;
      assert pieces[1..] == rest;
    }
  }

  /** Every statement has such a cut, and replace-all gives what the replacement of its matches gives. */
  lemma ReplaceAllMeaning(r: Rule, s: string)
    ensures exists pieces :: Cut(r, s, 0, pieces)
    ensures forall pieces :: Cut(r, s, 0, pieces) ==> ReplaceAll(r, s) == Replaced(Replacement(r), pieces)
  {
    var some := SomeCut(r, s, 0);
    forall pieces | Cut(r, s, 0, pieces) ensures ReplaceAll(r, s) == Replaced(Replacement(r), pieces) {
      CutIsScanned(r, s, Matcher(r, s), 0, pieces);
      ScannedIsReplaced(s, Matcher(r, s), Replacement(r), 0, pieces);
    }
  }
}
