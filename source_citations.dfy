/**
 * The citation extractor of src/lib/parseSources.ts: it splits an assistant
 * answer at the fixed Sources marker into a trimmed body and the citation
 * entries found, left to right, in the text after the marker.
 *
 * The entry regex `\*\s+\[([^\]]+)\]\(source:([^)]+)\)\s+\(Confidence:\s+([\d.]+)%\)`
 * is written as a list of pattern items matched greedily (MatchItems). Every
 * repetition in it is followed by a character its class excludes, so the greedy
 * run is the only one that can succeed; GreedyIsExact proves that the greedy
 * matcher agrees with a backtracking reference semantics (Accepts) on such
 * patterns. Matching works on one string and a position, as `exec` with
 * `lastIndex` does.
 */
module SourceCitations {
  import opened Options
  import opened Text

  /** One citation; `confidence` is `parseFloat` of the matched numeral, `None` standing for `NaN`. */
  datatype Citation = Citation(location: string, id: string, confidence: Option<real>)

  datatype Parsed = Parsed(content: string, sources: seq<Citation>)

  const Marker: string := "\n\n---\n\n**Sources:**\n"

  /** The repeated character classes of the entry regex. */
  datatype CharClass = Space | NotCloseBracket | NotCloseParen | DigitOrDot

  predicate InClass(c: char, k: CharClass) {
    match k
    case Space => IsSpace(c)
    case NotCloseBracket => c != ']'
    case NotCloseParen => c != ')'
    case DigitOrDot => ('0' <= c <= '9') || c == '.'
  }

  predicate AllIn(s: string, k: CharClass) {
    forall i :: 0 <= i < |s| ==> InClass(s[i], k)
  }

  /** Every character of `s[i..e]` is in class `k`. */
  predicate InRange(s: string, i: nat, e: nat, k: CharClass)
    requires i <= e <= |s|
  {
    forall j :: i <= j < e ==> InClass(s[j], k)
  }

  lemma RangeToSlice(s: string, i: nat, e: nat, k: CharClass)
    requires i <= e <= |s| && InRange(s, i, e, k)
    ensures AllIn(s[i..e], k)
  {
    assert forall j :: 0 <= j < e - i ==> s[i..e][j] == s[i + j];
  }

  /** Where a greedy repetition of class `k` starting at `i` stops. */
  function RunEnd(s: string, i: nat, k: CharClass): (e: nat)
    requires i <= |s|
    ensures i <= e <= |s|
    ensures e == |s| || !InClass(s[e], k)
    decreases |s| - i
  {
    if i < |s| && InClass(s[i], k) then RunEnd(s, i + 1, k) else i
  }

  /** The greedy run consists of characters of its class. */
  lemma {:induction false} RunEndRange(s: string, i: nat, k: CharClass)
    requires i <= |s|
    ensures InRange(s, i, RunEnd(s, i, k), k)
    decreases |s| - i
  {
    if i < |s| && InClass(s[i], k) {
      RunEndRange(s, i + 1, k);
    }
  }

  /** What a citation built from a successful match satisfies. */
  predicate WellFormed(c: Citation) {
    && c.location != [] && ']' !in c.location
    && c.id != [] && ')' !in c.id
    && (c.confidence.Some? ==> c.confidence.value >= 0.0)
  }

  /** The regex constructs the entry pattern uses: a literal, `class+`, and a capture group `(class+)`. */
  datatype Item = Lit(text: string) | Plus(chars: CharClass) | Capture(chars: CharClass)

  /** `\*\s+\[([^\]]+)\]\(source:([^)]+)\)\s+\(Confidence:\s+([\d.]+)%\)` */
  const EntryPattern: seq<Item> := [
    Lit("*"), Plus(Space), Lit("["), Capture(NotCloseBracket), Lit("](source:"),
    Capture(NotCloseParen), Lit(")"), Plus(Space), Lit("(Confidence:"), Plus(Space),
    Capture(DigitOrDot), Lit("%)")]

  /** The items of the entry pattern, one by one. */
  lemma EntryPatternItems()
    ensures |EntryPattern| == 12
    ensures EntryPattern[0] == Lit("*") && EntryPattern[1] == Plus(Space) && EntryPattern[2] == Lit("[")
    ensures EntryPattern[3] == Capture(NotCloseBracket) && EntryPattern[4] == Lit("](source:")
    ensures EntryPattern[5] == Capture(NotCloseParen) && EntryPattern[6] == Lit(")")
    ensures EntryPattern[7] == Plus(Space) && EntryPattern[8] == Lit("(Confidence:")
    ensures EntryPattern[9] == Plus(Space) && EntryPattern[10] == Capture(DigitOrDot)
    ensures EntryPattern[11] == Lit("%)")
  {
  }

  function CaptureClasses(items: seq<Item>): seq<CharClass> {
    if items == [] then []
    else if items[0].Capture? then [items[0].chars] + CaptureClasses(items[1..])
    else CaptureClasses(items[1..])
  }

  /** The groups captured by a match and the position where it ends. */
  datatype Captured = Captured(groups: seq<string>, end: nat)

  /** Greedy matching of `items` at position `i`: each repetition takes its longest run, with no backtracking. */
  function MatchItems(items: seq<Item>, s: string, i: nat): (r: Option<Captured>)
    requires i <= |s|
    ensures r.Some? ==> i <= r.value.end <= |s|
    // The second component is not needed for termination; with it the matcher is unfolded
    // on the constant entry pattern only as far as a proof asks.
    decreases |items|, |s| - i
  {
    if items == [] then Some(Captured([], i))
    else match items[0]
      case Lit(x) =>
        if OccursAt(s, i, x) then MatchItems(items[1..], s, i + |x|) else None
      case Plus(k) =>
        var e := RunEnd(s, i, k);
        if e == i then None else MatchItems(items[1..], s, e)
      case Capture(k) =>
        var e := RunEnd(s, i, k);
        if e == i then None
        else match MatchItems(items[1..], s, e)
          case None => None
          case Some(c) => Some(Captured([s[i..e]] + c.groups, c.end))
  }

  /** Each captured group is a non-empty run of its group's class. */
  lemma {:induction false} MatchItemsGroups(items: seq<Item>, s: string, i: nat)
    requires i <= |s| && MatchItems(items, s, i).Some?
    ensures |MatchItems(items, s, i).value.groups| == |CaptureClasses(items)|
    ensures forall g :: 0 <= g < |MatchItems(items, s, i).value.groups| ==>
      MatchItems(items, s, i).value.groups[g] != []
      && AllIn(MatchItems(items, s, i).value.groups[g], CaptureClasses(items)[g])
    decreases |items|, 1
  {
    if items != [] {
      match items[0]
      case Lit(x) => MatchItemsGroups(items[1..], s, i + |x|);
      case Plus(k) => MatchItemsGroups(items[1..], s, RunEnd(s, i, k));
      case Capture(k) => CaptureGroups(items, s, i, k);
    }
  }

  /** MatchItemsGroups when the pattern starts with a capture group. */
  lemma {:induction false} CaptureGroups(items: seq<Item>, s: string, i: nat, k: CharClass)
    requires i <= |s| && items != [] && items[0] == Capture(k) && MatchItems(items, s, i).Some?
    ensures |MatchItems(items, s, i).value.groups| == |CaptureClasses(items)|
    ensures forall g :: 0 <= g < |MatchItems(items, s, i).value.groups| ==>
      MatchItems(items, s, i).value.groups[g] != []
      && AllIn(MatchItems(items, s, i).value.groups[g], CaptureClasses(items)[g])
    decreases |items|, 0
  {
    var e := RunEnd(s, i, k);
    MatchItemsGroups(items[1..], s, e);
    RunEndRange(s, i, k);
    RangeToSlice(s, i, e, k);
  }

  /** Reference semantics of `items` as a backtracking regex engine sees it: from `i` the text splits
      into pieces accepted item by item, a repetition taking any non-empty run, ending at `end`. */
  ghost predicate Accepts(items: seq<Item>, s: string, i: nat, groups: seq<string>, end: nat)
    requires i <= |s|
    decreases |items|, |s| - i
  {
    if items == [] then groups == [] && end == i
    else match items[0]
      case Lit(x) => OccursAt(s, i, x) && Accepts(items[1..], s, i + |x|, groups, end)
      case Plus(k) =>
        exists e :: i < e <= |s| && InRange(s, i, e, k) && Accepts(items[1..], s, e, groups, end)
      case Capture(k) =>
        groups != [] &&
        exists e :: i < e <= |s| && InRange(s, i, e, k) && groups[0] == s[i..e]
                    && Accepts(items[1..], s, e, groups[1..], end)
  }

  /** No character of class `k` can begin what `next` accepts. */
  predicate Excludes(k: CharClass, next: Item) {
    match next
    case Lit(x) => x != [] && !InClass(x[0], k)
    case Plus(k2) => forall c :: InClass(c, k2) ==> !InClass(c, k)
    case Capture(k2) => forall c :: InClass(c, k2) ==> !InClass(c, k)
  }

  /** Every repetition is followed by an item that excludes its class. */
  predicate Determined(items: seq<Item>) {
    forall j {:trigger items[j]} :: 0 <= j < |items| ==>
      items[j].Lit? || (j + 1 < |items| && Excludes(items[j].chars, items[j + 1]))
  }

  /** A determined pattern stays determined without its first item. */
  lemma DeterminedTail(items: seq<Item>)
    requires items != [] && Determined(items)
    ensures Determined(items[1..])
  {
    forall j | 0 <= j < |items| - 1
      ensures items[1..][j].Lit? || (j + 1 < |items| - 1 && Excludes(items[1..][j].chars, items[1..][j + 1]))
    {
      assert items[1..][j] == items[j + 1];
      if j + 1 < |items| - 1 {
        assert items[1..][j + 1] == items[j + 2];
      }
    }
  }

  /** A repetition at the head of a determined pattern is followed by an item excluding its class. */
  lemma DeterminedHead(items: seq<Item>)
    requires items != [] && Determined(items) && !items[0].Lit?
    ensures |items| > 1 && Excludes(items[0].chars, items[1])
  {
  }

  /** The character where an accepted piece starts lies outside every class the first item excludes. */
  lemma AcceptsFirst(items: seq<Item>, s: string, i: nat, groups: seq<string>, end: nat, k: CharClass)
    requires i <= |s| && items != [] && Accepts(items, s, i, groups, end)
    requires Excludes(k, items[0])
    ensures i < |s| && !InClass(s[i], k)
  {
    match items[0]
    case Lit(x) =>
      assert s[i..i + |x|][0] == s[i];
    case Plus(k2) =>
      var e :| i < e <= |s| && InRange(s, i, e, k2) && Accepts(items[1..], s, e, groups, end);
    case Capture(k2) =>
      var e :| i < e <= |s| && InRange(s, i, e, k2) && groups[0] == s[i..e]
               && Accepts(items[1..], s, e, groups[1..], end);
  }

  /** A run of class `k` from `i` ends no later than the greedy run. */
  lemma {:induction false} RunEndAtLeast(s: string, i: nat, e: nat, k: CharClass)
    requires i <= e <= |s| && InRange(s, i, e, k)
    ensures e <= RunEnd(s, i, k)
    decreases e - i
  {
    if i < e {
      RunEndAtLeast(s, i + 1, e, k);
    }
  }

  /** Whatever the greedy matcher finds, the reference semantics accepts. */
  lemma {:induction false} GreedySound(items: seq<Item>, s: string, i: nat)
    requires i <= |s| && MatchItems(items, s, i).Some?
    ensures Accepts(items, s, i, MatchItems(items, s, i).value.groups, MatchItems(items, s, i).value.end)
    decreases |items|
  {
    if items != [] {
      match items[0]
      case Lit(x) => GreedySound(items[1..], s, i + |x|);
      case Plus(k) =>
        RunEndRange(s, i, k);
        GreedySound(items[1..], s, RunEnd(s, i, k));
      case Capture(k) =>
        var m := RunEnd(s, i, k);
        RunEndRange(s, i, k);
        GreedySound(items[1..], s, m);
        var c := MatchItems(items[1..], s, m).value;
        assert ([s[i..m]] + c.groups)[1..] == c.groups;
    }
  }

  /** On a determined pattern, what the reference semantics accepts is what the greedy matcher finds:
      a repetition that stopped short of its longest run would be followed by a character of its own class. */
  lemma {:induction false} GreedyComplete(items: seq<Item>, s: string, i: nat, groups: seq<string>, end: nat)
    requires i <= |s| && Determined(items) && Accepts(items, s, i, groups, end)
    ensures MatchItems(items, s, i) == Some(Captured(groups, end))
    decreases |items|, 1
  {
    if items != [] {
      DeterminedTail(items);
      match items[0]
      case Lit(x) => GreedyComplete(items[1..], s, i + |x|, groups, end);
      case Plus(k) => GreedyCompletePlus(items, s, i, groups, end, k);
      case Capture(k) => GreedyCompleteCapture(items, s, i, groups, end, k);
    }
  }

  /** GreedyComplete when the pattern starts with a repetition. */
  lemma {:induction false} GreedyCompletePlus(items: seq<Item>, s: string, i: nat, groups: seq<string>, end: nat,
                                              k: CharClass)
    requires i <= |s| && items != [] && items[0] == Plus(k) && Determined(items)
    requires Accepts(items, s, i, groups, end)
    ensures MatchItems(items, s, i) == Some(Captured(groups, end))
    decreases |items|, 0
  {
    var e :| i < e <= |s| && InRange(s, i, e, k) && Accepts(items[1..], s, e, groups, end);
    DeterminedHead(items);
    DeterminedTail(items);
    StopsAtRunEnd(items, s, i, e, groups, end, k);
    GreedyComplete(items[1..], s, e, groups, end);
  }

  /** GreedyComplete when the pattern starts with a capture group. */
  lemma {:induction false} GreedyCompleteCapture(items: seq<Item>, s: string, i: nat, groups: seq<string>,
                                                 end: nat, k: CharClass)
    requires i <= |s| && items != [] && items[0] == Capture(k) && Determined(items)
    requires Accepts(items, s, i, groups, end)
    ensures MatchItems(items, s, i) == Some(Captured(groups, end))
    decreases |items|, 0
  {
    var e :| i < e <= |s| && InRange(s, i, e, k) && groups[0] == s[i..e]
             && Accepts(items[1..], s, e, groups[1..], end);
    DeterminedHead(items);
    DeterminedTail(items);
    StopsAtRunEnd(items, s, i, e, groups[1..], end, k);
    GreedyComplete(items[1..], s, e, groups[1..], end);
    assert groups == [s[i..e]] + groups[1..];
  }

  /** An accepted run of the first item's class ends exactly where the greedy run does. */
  lemma StopsAtRunEnd(items: seq<Item>, s: string, i: nat, e: nat, groups: seq<string>, end: nat, k: CharClass)
    requires |items| > 1 && (items[0] == Plus(k) || items[0] == Capture(k)) && Excludes(k, items[1])
    requires i <= e <= |s| && InRange(s, i, e, k) && Accepts(items[1..], s, e, groups, end)
    ensures RunEnd(s, i, k) == e
  {
    var m := RunEnd(s, i, k);
    RunEndAtLeast(s, i, e, k);
    RunEndRange(s, i, k);
    if e < m {
      AcceptsFirst(items[1..], s, e, groups, end, k);
    }
  }

  /** For a determined pattern the greedy matcher finds exactly what the reference semantics accepts:
      the match is unique, and backtracking could not produce another. */
  lemma GreedyIsExact(items: seq<Item>, s: string, i: nat, groups: seq<string>, end: nat)
    requires i <= |s| && Determined(items)
    ensures MatchItems(items, s, i) == Some(Captured(groups, end)) <==> Accepts(items, s, i, groups, end)
  {
    if MatchItems(items, s, i) == Some(Captured(groups, end)) {
      GreedySound(items, s, i);
    }
    if Accepts(items, s, i, groups, end) {
      GreedyComplete(items, s, i, groups, end);
    }
  }

  /** No digit or dot is whitespace. */
  lemma DigitsAreNotSpace()
    ensures forall c :: InClass(c, DigitOrDot) ==> !InClass(c, Space)
  {
  }

  /** The entry pattern is determined: each repetition is followed by a literal it does not contain,
      except the spaces before the confidence, which a digit or dot follows. */
  lemma EntryPatternDetermined()
    ensures Determined(EntryPattern)
  {
    EntryPatternItems();
    DigitsAreNotSpace();
  }

  /** The entry pattern captures the location, the id and the confidence. */
  lemma EntryPatternCaptures()
    ensures CaptureClasses(EntryPattern) == [NotCloseBracket, NotCloseParen, DigitOrDot]
  {
    var e := EntryPattern;
    ClassesFromSuffix(e, 0);
    assert e[0..] == e;
    EntryClassesFrom();
  }

  /** The classes of the capture groups from item `j` on. */
  function ClassesFrom(items: seq<Item>, j: nat): seq<CharClass>
    requires j <= |items|
    decreases |items| - j
  {
    if j == |items| then []
    else (if items[j].Capture? then [items[j].chars] else []) + ClassesFrom(items, j + 1)
  }

  /** `CaptureClasses` of a suffix, counted by position. */
  lemma {:induction false} ClassesFromSuffix(items: seq<Item>, j: nat)
    requires j <= |items|
    ensures CaptureClasses(items[j..]) == ClassesFrom(items, j)
    decreases |items| - j
  {
    if j < |items| {
      ClassesFromSuffix(items, j + 1);
      assert items[j..][0] == items[j] && items[j..][1..] == items[j + 1..];
    }
  }

  lemma EntryClassesFrom()
    ensures ClassesFrom(EntryPattern, 0) == [NotCloseBracket, NotCloseParen, DigitOrDot]
  {
    var e := EntryPattern;
    EntryPatternItems();
    assert ClassesFrom(e, 9) == [DigitOrDot] by {
      assert ClassesFrom(e, 11) == [];
    }
    assert ClassesFrom(e, 4) == [NotCloseParen, DigitOrDot] by {
      assert ClassesFrom(e, 6) == [DigitOrDot];
    }
  }

  /** A match: the captured citation and the position after it (the regex's new `lastIndex`). */
  datatype Match = Match(citation: Citation, end: nat)

  /** The entry regex tried at position `i` of `s`. */
  function MatchAt(s: string, i: nat): (m: Option<Match>)
    requires i <= |s|
    ensures m.Some? ==> i < m.value.end <= |s| && WellFormed(m.value.citation)
  {
    assert EntryPattern[0] == Lit("*");
    match MatchItems(EntryPattern, s, i)
    case None => None
    case Some(c) =>
      EntryPatternCaptures();
      MatchItemsGroups(EntryPattern, s, i);
      Some(Match(Citation(c.groups[0], c.groups[1], ParseFloat(c.groups[2])), c.end))
  }

  /** All matches of the global regex from position `i` on, left to right and non-overlapping:
      after a match the search resumes at its end, otherwise one position later. */
  function Scan(s: string, i: nat): (r: seq<Citation>)
    requires i <= |s|
    ensures forall c :: c in r ==> WellFormed(c)
    decreases |s| - i
  {
    if i == |s| then []
    else match MatchAt(s, i)
      case Some(m) => [m.citation] + Scan(s, m.end)
      case None => Scan(s, i + 1)
  }

  /** What `parseSources` returns for `text`. */
  function ParseSpec(text: string): (r: Parsed)
    ensures forall c :: c in r.sources ==> WellFormed(c)
  {
    var k := IndexOf(text, Marker);
    if k < 0 then Parsed(text, [])
    else Parsed(Trim(text[..k]), Scan(text[k + |Marker|..], 0))
  }

  /** A successful `exec`: where the match starts, what it captured and the new `lastIndex`. */
  datatype Found = Found(index: nat, citation: Citation, lastIndex: nat)

  /** `sourceRegex.exec(s)` with the regex's `lastIndex` at `lastIndex`: the leftmost match at or after it. */
  method Exec(s: string, lastIndex: nat) returns (found: Option<Found>)
    requires lastIndex <= |s|
    ensures found.None? ==> forall q :: lastIndex <= q <= |s| ==> MatchAt(s, q).None?
    ensures found.Some? ==>
      && lastIndex <= found.value.index < found.value.lastIndex <= |s|
      && (forall q :: lastIndex <= q < found.value.index ==> MatchAt(s, q).None?)
      && MatchAt(s, found.value.index) == Some(Match(found.value.citation, found.value.lastIndex))
  {
    var p := lastIndex;
    while p <= |s|
      invariant lastIndex <= p <= |s| + 1
      invariant forall q :: lastIndex <= q < p ==> MatchAt(s, q).None?
      decreases |s| + 1 - p
    {
      var m := MatchAt(s, p);
      if m.Some? {
        return Some(Found(p, m.value.citation, m.value.end));
      }
      p := p + 1;
    }
    return None;
  }

  /** Positions where no match starts contribute nothing to the scan. */
  lemma {:induction false} ScanSkip(s: string, i: nat, p: nat)
    requires i <= p <= |s|
    requires forall q :: i <= q < p ==> MatchAt(s, q).None?
    ensures Scan(s, i) == Scan(s, p)
    decreases p - i
  {
    if i < p {
      ScanSkip(s, i + 1, p);
    }
  }

  /** `parseSources`: the marker split, then the `while (exec ...)` loop pushing one citation per match. */
  method ParseSources(text: string) returns (r: Parsed)
    ensures r == ParseSpec(text)
    ensures forall c :: c in r.sources ==> WellFormed(c)
  {
    var markerIndex := IndexOf(text, Marker);
    if markerIndex == -1 {
      return Parsed(text, []);
    }
    var content := Trim(text[..markerIndex]);
    var sourcesText := text[markerIndex + |Marker|..];
    var sources: seq<Citation> := [];
    var lastIndex: nat := 0;
    while true
      invariant lastIndex <= |sourcesText|
      invariant sources + Scan(sourcesText, lastIndex) == Scan(sourcesText, 0)
      decreases |sourcesText| - lastIndex
    {
      var found := Exec(sourcesText, lastIndex);
      if found.None? {
        ScanSkip(sourcesText, lastIndex, |sourcesText|);
        break;
      }
      var f := found.value;
      ScanSkip(sourcesText, lastIndex, f.index);
      sources := sources + [f.citation];
      lastIndex := f.lastIndex;
    }
    r := Parsed(content, sources);
  }

  /** A match starts with `*`. */
  lemma NoMatchWithoutStar(s: string, i: nat)
    requires i <= |s| && (i == |s| || s[i] != '*')
    ensures MatchAt(s, i).None?
  {
    assert EntryPattern[0] == Lit("*");
  }

  // ---------------------------------------------------------------------------
  // The entry lines the backend writes.

  /** What a citation line's three fields must be for the entry regex to read them back. */
  predicate EntryFields(location: string, id: string, confidence: string) {
    && location != [] && ']' !in location
    && id != [] && ')' !in id
    && confidence != [] && AllIn(confidence, DigitOrDot)
  }

  /** Text written piece by piece, from piece `j` on. */
  function FlattenFrom(pieces: seq<string>, j: nat): string
    requires j <= |pieces|
    decreases |pieces| - j
  {
    if j == |pieces| then [] else pieces[j] + FlattenFrom(pieces, j + 1)
  }

  /** A piece the item accepts on its own: the literal itself, or a non-empty run of the class. */
  predicate PieceFits(item: Item, piece: string) {
    match item
    case Lit(x) => piece == x
    case Plus(k) => piece != [] && AllIn(piece, k)
    case Capture(k) => piece != [] && AllIn(piece, k)
  }

  /** One piece per item, each fitting its item. */
  predicate Fits(items: seq<Item>, pieces: seq<string>) {
    |items| == |pieces| && forall j :: 0 <= j < |items| ==> PieceFits(items[j], pieces[j])
  }

  /** The pieces that the capture groups from item `j` on take. */
  function CapturedFrom(items: seq<Item>, pieces: seq<string>, j: nat): seq<string>
    requires |items| == |pieces| && j <= |items|
    decreases |items| - j
  {
    if j == |items| then []
    else (if items[j].Capture? then [pieces[j]] else []) + CapturedFrom(items, pieces, j + 1)
  }

  lemma OccursAtSplit(s: string, i: nat, a: string, b: string)
    requires OccursAt(s, i, a + b)
    ensures OccursAt(s, i, a) && OccursAt(s, i + |a|, b)
  {
    var w := s[i..i + |a| + |b|];
    assert w == a + b;
    assert s[i..i + |a|] == w[..|a|];
    assert s[i + |a|..i + |a| + |b|] == w[|a|..];
  }

  lemma OccursAtAllIn(s: string, i: nat, t: string, k: CharClass)
    requires OccursAt(s, i, t) && AllIn(t, k)
    ensures InRange(s, i, i + |t|, k)
  {
    forall j | i <= j < i + |t|
      ensures InClass(s[j], k)
    {
      assert s[j] == s[i..i + |t|][j - i] == t[j - i];
    }
  }

  /** Text made of pieces that fit the items one by one is accepted, each capture taking its piece. */
  lemma {:induction false} AcceptsPieces(items: seq<Item>, pieces: seq<string>, j: nat, s: string, i: nat)
    requires Fits(items, pieces) && j <= |items| && OccursAt(s, i, FlattenFrom(pieces, j))
    ensures Accepts(items[j..], s, i, CapturedFrom(items, pieces, j), i + |FlattenFrom(pieces, j)|)
    decreases |items| - j
  {
    if j < |items| {
      var t := pieces[j];
      OccursAtSplit(s, i, t, FlattenFrom(pieces, j + 1));
      AcceptsPieces(items, pieces, j + 1, s, i + |t|);
      assert items[j..][0] == items[j] && items[j..][1..] == items[j + 1..];
      assert PieceFits(items[j], t);
      var g := CapturedFrom(items, pieces, j + 1);
      match items[j]
      case Lit(x) =>
        assert [] + g == g;
      case Plus(k) =>
        OccursAtAllIn(s, i, t, k);
        assert [] + g == g;
      case Capture(k) =>
        OccursAtAllIn(s, i, t, k);
        assert ([t] + g)[1..] == g;
    }
  }

  /** The pieces of an entry line, one per item of the entry pattern. */
  function EntryPieces(location: string, id: string, confidence: string): seq<string> {
    ["*", "   ", "[", location, "](source:", id, ")", " ", "(Confidence:", " ", confidence, "%)"]
  }

  /** `*   [location](source:id) (Confidence: confidence%)` */
  function RenderEntry(location: string, id: string, confidence: string): string {
    FlattenFrom(EntryPieces(location, id, confidence), 0)
  }

  lemma EntryPiecesFit(location: string, id: string, confidence: string)
    requires EntryFields(location, id, confidence)
    ensures Fits(EntryPattern, EntryPieces(location, id, confidence))
  {
    AllInFields(location, id);
    EntryPatternItems();
    var p, q := EntryPattern, EntryPieces(location, id, confidence);
    assert PieceFits(p[1], q[1]) && PieceFits(p[7], q[7]) && PieceFits(p[9], q[9]);
  }

  lemma AllInFields(location: string, id: string)
    requires ']' !in location && ')' !in id
    ensures AllIn(location, NotCloseBracket) && AllIn(id, NotCloseParen)
  {
    assert forall j :: 0 <= j < |location| ==> location[j] in location;
    assert forall j :: 0 <= j < |id| ==> id[j] in id;
  }

  /** The entry regex at the start of a rendered entry line matches exactly that line and reads its fields back. */
  lemma EntryMatch(s: string, i: nat, location: string, id: string, confidence: string)
    requires EntryFields(location, id, confidence)
    requires OccursAt(s, i, RenderEntry(location, id, confidence))
    ensures MatchAt(s, i) == Some(Match(Citation(location, id, ParseFloat(confidence)),
                                        i + |RenderEntry(location, id, confidence)|))
  {
    EntryPiecesFit(location, id, confidence);
    FittingEntry(s, i, EntryPieces(location, id, confidence));
  }

  /** Text made of pieces that fit the entry pattern is one match, whose fields are the captured pieces. */
  lemma FittingEntry(s: string, i: nat, q: seq<string>)
    requires Fits(EntryPattern, q) && OccursAt(s, i, FlattenFrom(q, 0))
    ensures MatchAt(s, i) == Some(Match(Citation(q[3], q[5], ParseFloat(q[10])), i + |FlattenFrom(q, 0)|))
  {
    FittingAccepts(s, i, q);
    AcceptedEntry(s, i, [q[3], q[5], q[10]], i + |FlattenFrom(q, 0)|);
  }

  lemma FittingAccepts(s: string, i: nat, q: seq<string>)
    requires Fits(EntryPattern, q) && OccursAt(s, i, FlattenFrom(q, 0))
    ensures Accepts(EntryPattern, s, i, [q[3], q[5], q[10]], i + |FlattenFrom(q, 0)|)
  {
    AcceptsPieces(EntryPattern, q, 0, s, i);
    EntryCapturedPieces(q);
    assert EntryPattern[0..] == EntryPattern;
  }

  lemma EntryCapturedPieces(q: seq<string>)
    requires |q| == |EntryPattern|
    ensures CapturedFrom(EntryPattern, q, 0) == [q[3], q[5], q[10]]
  {
    var e := EntryPattern;
    EntryPatternItems();
    EntryCapturedFrom4(q);
    assert CapturedFrom(e, q, 3) == [q[3], q[5], q[10]];
    assert CapturedFrom(e, q, 2) == [q[3], q[5], q[10]];
    assert CapturedFrom(e, q, 1) == [q[3], q[5], q[10]];
  }

  lemma EntryCapturedFrom9(q: seq<string>)
    requires |q| == |EntryPattern|
    ensures CapturedFrom(EntryPattern, q, 9) == [q[10]]
  {
    var e := EntryPattern;
    EntryPatternItems();
    assert CapturedFrom(e, q, 12) == [];
    assert CapturedFrom(e, q, 11) == [];
    assert CapturedFrom(e, q, 10) == [q[10]];
  }

  lemma EntryCapturedFrom4(q: seq<string>)
    requires |q| == |EntryPattern|
    ensures CapturedFrom(EntryPattern, q, 4) == [q[5], q[10]]
  {
    var e := EntryPattern;
    EntryPatternItems();
    EntryCapturedFrom9(q);
    assert CapturedFrom(e, q, 8) == [q[10]];
    assert CapturedFrom(e, q, 7) == [q[10]];
    assert CapturedFrom(e, q, 6) == [q[10]];
    assert CapturedFrom(e, q, 5) == [q[5], q[10]];
  }

  /** A flattening after position `j` depends only on the pieces from `j` on. */
  lemma {:induction false} FlattenFromSame(p: seq<string>, q: seq<string>, j: nat)
    requires |p| == |q| && j <= |p| && forall k :: j <= k < |p| ==> p[k] == q[k]
    ensures FlattenFrom(p, j) == FlattenFrom(q, j)
    decreases |p| - j
  {
    if j < |p| {
      FlattenFromSame(p, q, j + 1);
    }
  }

  /** The first four pieces, then the rest. */
  lemma FlattenHead(p: seq<string>)
    requires |p| >= 4
    ensures FlattenFrom(p, 0) == p[0] + p[1] + p[2] + p[3] + FlattenFrom(p, 4)
  {
    var r := FlattenFrom(p, 4);
    assert FlattenFrom(p, 3) == p[3] + r;
    assert FlattenFrom(p, 2) == p[2] + (p[3] + r);
    assert FlattenFrom(p, 1) == p[1] + (p[2] + (p[3] + r));
    assert FlattenFrom(p, 0) == p[0] + (p[1] + (p[2] + (p[3] + r)));
  }

  /** An entry opens with `*   [` and its location, and what follows does not depend on the location. */
  lemma EntryPiecesHead(location: string, other: string, id: string, confidence: string)
    ensures var p := EntryPieces(location, id, confidence);
      |p| == 12 && p[0] + p[1] + p[2] == "*   [" && p[3] == location
    ensures forall k :: 4 <= k < 12 ==> EntryPieces(location, id, confidence)[k] == EntryPieces(other, id, confidence)[k]
  {
  }

  /**
   * The location class `[^\]]` takes newlines too: an unterminated `*   [`
   * line runs on into the next entry line, and the two lines read as one
   * citation whose location spans both, so the entry on the second line is
   * not reported on its own.
   */
  lemma BracketRunCrossesLines(head: string, location: string, id: string, confidence: string)
    requires ']' !in head && EntryFields(location, id, confidence)
    ensures var s := "*   [" + head + "\n" + RenderEntry(location, id, confidence);
      MatchAt(s, 0) == Some(Match(Citation(head + "\n*   [" + location, id, ParseFloat(confidence)), |s|))
  {
    var joined := head + "\n*   [" + location;
    var s := "*   [" + head + "\n" + RenderEntry(location, id, confidence);
    RunOnEntry(head, location, id, confidence);
    assert EntryFields(joined, id, confidence);
    assert s[0..|s|] == s;
    EntryMatch(s, 0, joined, id, confidence);
  }

  /** An entry whose location is `head`, a newline and a second entry's opening renders as the two lines. */
  lemma RunOnEntry(head: string, location: string, id: string, confidence: string)
    ensures RenderEntry(head + "\n*   [" + location, id, confidence)
      == "*   [" + head + "\n" + RenderEntry(location, id, confidence)
  {
    var joined := head + "\n*   [" + location;
    var rest := RenderTail(location, joined, id, confidence);
    assert "*   [" + joined + rest == "*   [" + head + "\n" + ("*   [" + location + rest);
  }

  /** The text of an entry after its location, the same for any two locations. */
  lemma RenderTail(location: string, other: string, id: string, confidence: string) returns (rest: string)
    ensures RenderEntry(location, id, confidence) == "*   [" + location + rest
    ensures RenderEntry(other, id, confidence) == "*   [" + other + rest
  {
    var p, q := EntryPieces(location, id, confidence), EntryPieces(other, id, confidence);
    EntryPiecesHead(location, other, id, confidence);
    EntryPiecesHead(other, location, id, confidence);
    FlattenFromSame(p, q, 4);
    FlattenHead(p);
    FlattenHead(q);
    rest := FlattenFrom(p, 4);
  }

  /** Whatever the entry pattern accepts, the entry regex matches, with those groups and that end. */
  lemma AcceptedEntry(s: string, i: nat, groups: seq<string>, end: nat)
    requires i <= |s| && |groups| == 3 && Accepts(EntryPattern, s, i, groups, end)
    ensures MatchAt(s, i) == Some(Match(Citation(groups[0], groups[1], ParseFloat(groups[2])), end))
  {
    EntryPatternDetermined();
    GreedyComplete(EntryPattern, s, i, groups, end);
  }

  // ---------------------------------------------------------------------------
  // The sources block the backend writes: one line per citation, and other lines without `*`.

  datatype Line = Entry(location: string, id: string, confidence: string) | Other(text: string)

  predicate LineOk(l: Line) {
    match l
    case Entry(location, id, confidence) => EntryFields(location, id, confidence)
    case Other(t) => '*' !in t
  }

  function LineText(l: Line): string {
    match l
    case Entry(location, id, confidence) => RenderEntry(location, id, confidence)
    case Other(t) => t
  }

  /** The lines, each ended by a newline. */
  function RenderLines(ls: seq<Line>): string {
    if ls == [] then [] else LineText(ls[0]) + "\n" + RenderLines(ls[1..])
  }

  function LineEntries(l: Line): seq<Citation> {
    match l
    case Entry(location, id, confidence) => [Citation(location, id, ParseFloat(confidence))]
    case Other(_) => []
  }

  /** The citations the entry lines carry, in order. */
  function Entries(ls: seq<Line>): seq<Citation> {
    if ls == [] then [] else LineEntries(ls[0]) + Entries(ls[1..])
  }

  /** Text from `i` on that starts with `a` and goes on with `b`. */
  lemma SuffixSplit(s: string, i: nat, a: string, b: string)
    requires i <= |s| && s[i..] == a + b
    ensures OccursAt(s, i, a) && s[i + |a|..] == b
  {
    assert s[i..i + |a|] == s[i..][..|a|];
    assert s[i + |a|..] == s[i..][|a|..];
  }

  /** An entry line at `i` yields its citation, and the scan goes on after its newline. */
  lemma EntryLineAt(s: string, i: nat, l: Line)
    requires l.Entry? && LineOk(l) && OccursAt(s, i, LineText(l) + "\n")
    ensures Scan(s, i) == LineEntries(l) + Scan(s, i + |LineText(l)| + 1)
  {
    var r := RenderEntry(l.location, l.id, l.confidence);
    OccursAtSplit(s, i, r, "\n");
    EntryMatch(s, i, l.location, l.id, l.confidence);
    assert s[i + |r|] == s[i + |r|..i + |r| + 1][0];
    NoMatchWithoutStar(s, i + |r|);
  }

  /** A line without `*` at `i` yields nothing. */
  lemma OtherLineAt(s: string, i: nat, l: Line)
    requires l.Other? && LineOk(l) && OccursAt(s, i, LineText(l) + "\n")
    ensures Scan(s, i) == LineEntries(l) + Scan(s, i + |LineText(l)| + 1)
  {
    var t := l.text;
    var x := t + "\n";
    forall q | i <= q < i + |x|
      ensures MatchAt(s, q).None?
    {
      assert s[q] == s[i..i + |x|][q - i] == x[q - i];
      if q - i < |t| {
        assert x[q - i] == t[q - i];
      }
      NoMatchWithoutStar(s, q);
    }
    ScanSkip(s, i, i + |x|);
  }

  /** The scan from where rendered lines make up the rest of the text finds exactly the citations
      of the entry lines, in order. */
  lemma {:induction false} ScanLinesAt(s: string, i: nat, ls: seq<Line>)
    requires forall j :: 0 <= j < |ls| ==> LineOk(ls[j])
    requires i <= |s| && s[i..] == RenderLines(ls)
    ensures Scan(s, i) == Entries(ls)
    decreases |ls|
  {
    if ls != [] {
      var t := LineText(ls[0]);
      SuffixSplit(s, i, t + "\n", RenderLines(ls[1..]));
      LineAt(s, i, ls[0]);
      assert forall j :: 0 <= j < |ls| - 1 ==> ls[1..][j] == ls[j + 1];
      ScanLinesAt(s, i + |t| + 1, ls[1..]);
    }
  }

  /** One line at `i`: its citations, then the scan after its newline. */
  lemma LineAt(s: string, i: nat, l: Line)
    requires LineOk(l) && OccursAt(s, i, LineText(l) + "\n")
    ensures Scan(s, i) == LineEntries(l) + Scan(s, i + |LineText(l)| + 1)
  {
    if l.Entry? {
      EntryLineAt(s, i, l);
    } else {
      OtherLineAt(s, i, l);
    }
  }

  // ---------------------------------------------------------------------------
  // The split at the marker.

  /** The marker occurs in `body + Marker` first right after the body. */
  predicate CleanBody(body: string) {
    forall p :: 0 <= p < |body| ==> !OccursAt(body + Marker, p, Marker)
  }

  /** A body with no newline is clean: the marker begins with one. */
  lemma NoNewlineClean(body: string)
    requires '\n' !in body
    ensures CleanBody(body)
  {
    forall p | 0 <= p < |body|
      ensures !OccursAt(body + Marker, p, Marker)
    {
      assert (body + Marker)[p] == body[p] && body[p] in body;
    }
  }

  lemma MarkerAfterCleanBody(body: string, rest: string)
    requires CleanBody(body)
    ensures IndexOf(body + Marker + rest, Marker) == |body|
  {
    var text := body + Marker + rest;
    assert text[|body|..|body| + |Marker|] == Marker;
    assert OccursAt(text, |body|, Marker);
    forall p | 0 <= p < |body|
      ensures OccursAt(text, p, Marker) == OccursAt(body + Marker, p, Marker)
    {
      assert text[p..p + |Marker|] == (body + Marker)[p..p + |Marker|];
    }
  }

  /** Parsing an answer written as a clean body, the marker and rendered lines gives back the trimmed
      body and exactly the citations of the entry lines, in order. */
  lemma RoundTrip(body: string, ls: seq<Line>)
    requires CleanBody(body)
    requires forall j :: 0 <= j < |ls| ==> LineOk(ls[j])
    ensures ParseSpec(body + Marker + RenderLines(ls)) == Parsed(Trim(body), Entries(ls))
  {
    var r := RenderLines(ls);
    MarkerAfterCleanBody(body, r);
    ThreeParts(body, Marker, r);
    WholeSuffix(r);
    ScanLinesAt(r, 0, ls);
  }

  lemma WholeSuffix(s: string)
    ensures s[0..] == s
  {
  }

  lemma ThreeParts(a: string, b: string, c: string)
    ensures (a + b + c)[..|a|] == a && (a + b + c)[|a| + |b|..] == c
  {
  }

  /** A trimmed clean body comes back unchanged. */
  lemma RoundTripTrimmed(body: string, ls: seq<Line>)
    requires Trimmed(body) && CleanBody(body)
    requires forall j :: 0 <= j < |ls| ==> LineOk(ls[j])
    ensures ParseSpec(body + Marker + RenderLines(ls)) == Parsed(body, Entries(ls))
  {
    RoundTrip(body, ls);
    TrimOfTrimmed(body);
  }

  /** Without the marker the text comes back whole, with no sources. */
  lemma NoMarkerKeepsText(text: string)
    requires forall p :: 0 <= p <= |text| ==> !OccursAt(text, p, Marker)
    ensures ParseSpec(text) == Parsed(text, [])
  {
  }

  /**
   * With the first marker at `k`, the content is the trimmed text before it and
   * the sources are those found after it; a later marker is just text to scan.
   */
  lemma FirstMarkerSplits(text: string, k: nat)
    requires OccursAt(text, k, Marker)
    requires forall p :: 0 <= p < k ==> !OccursAt(text, p, Marker)
    ensures ParseSpec(text) == Parsed(Trim(text[..k]), Scan(text[k + |Marker|..], 0))
  {
    assert IndexOf(text, Marker) == k;
  }

  /** An occurrence inside a slice is an occurrence in the whole string. */
  lemma OccursInSlice(s: string, lo: nat, hi: nat, q: nat, pat: string)
    requires lo <= hi <= |s|
    ensures OccursAt(s[lo..hi], q, pat) ==> OccursAt(s, lo + q, pat) && lo + q + |pat| <= hi
  {
    if q + |pat| <= hi - lo {
      var v := s[lo..hi][q..q + |pat|];
      assert forall j :: 0 <= j < |pat| ==> v[j] == s[lo + q + j];
      assert v == s[lo + q..lo + q + |pat|];
    }
  }

  /** A pattern with no occurrence before `k` has none in the trimmed text before `k`. */
  lemma TrimmedPrefixAvoids(text: string, k: nat, pat: string, p: nat)
    requires pat != [] && k <= |text| && forall q :: 0 <= q < k ==> !OccursAt(text, q, pat)
    ensures !OccursAt(Trim(text[..k]), p, pat)
  {
    PrefixAvoids(text, k, pat);
    TrimAvoids(text[..k], pat, p);
  }

  lemma PrefixAvoids(text: string, k: nat, pat: string)
    requires pat != [] && k <= |text| && forall q :: 0 <= q < k ==> !OccursAt(text, q, pat)
    ensures forall q :: 0 <= q <= k ==> !OccursAt(text[..k], q, pat)
  {
    forall q | 0 <= q <= k
      ensures !OccursAt(text[..k], q, pat)
    {
      OccursInSlice(text, 0, k, q, pat);
    }
  }

  lemma TrimAvoids(h: string, pat: string, p: nat)
    requires forall q :: 0 <= q <= |h| ==> !OccursAt(h, q, pat)
    ensures !OccursAt(Trim(h), p, pat)
  {
    var a := TrimInfix(h);
    OccursInSlice(h, a, a + |Trim(h)|, p, pat);
  }

  /** The content never contains the marker. */
  lemma ContentHasNoMarker(text: string, p: nat)
    ensures !OccursAt(ParseSpec(text).content, p, Marker)
  {
    var k := IndexOf(text, Marker);
    if k >= 0 {
      TrimmedPrefixAvoids(text, k, Marker, p);
    }
  }

  /** A marker-free body: an `x`, then the marker minus its final newline. */
  const LookAlike: string := "x" + Marker[..|Marker| - 1]

  /**
   * Marker-freedom alone does not make a body come back: `LookAlike` is
   * trimmed and marker-free, yet with the marker appended the marker is found
   * one character in, and only `"x"` is kept.
   */
  lemma MarkerFreeBodyNotEnough()
    ensures Trimmed(LookAlike)
    ensures forall p :: 0 <= p <= |LookAlike| ==> !OccursAt(LookAlike, p, Marker)
    ensures ParseSpec(LookAlike + Marker).content == "x"
  {
    LookAlikeTrimmed();
    LookAlikeMarkerFree();
    LookAlikeParsed();
  }

  lemma LookAlikeTrimmed()
    ensures Trimmed(LookAlike)
  {
    assert LookAlike[|LookAlike| - 1] == Marker[|Marker| - 2] == '*';
  }

  lemma LookAlikeMarkerFree()
    ensures forall p :: 0 <= p <= |LookAlike| ==> !OccursAt(LookAlike, p, Marker)
  {
    assert |LookAlike| == |Marker|;
    assert LookAlike[0] != Marker[0];
  }

  /** The marker is found one character into `LookAlike + Marker`. */
  lemma LookAlikeParsed()
    ensures ParseSpec(LookAlike + Marker).content == "x"
  {
    var text := LookAlike + Marker;
    ShiftedOccurrence('x', Marker);
    assert OccursAt(text, 1, Marker);
    assert !OccursAt(text, 0, Marker) by {
      assert text[0] != Marker[0];
    }
    assert text[..1] == "x";
    TrimOfTrimmed("x");
  }

  /** A pattern that ends with its own first character recurs one place after its shortened copy. */
  lemma ShiftedOccurrence(c: char, pat: string)
    requires pat != [] && pat[|pat| - 1] == pat[0]
    ensures OccursAt([c] + pat[..|pat| - 1] + pat, 1, pat)
  {
    var t := [c] + pat[..|pat| - 1] + pat;
    assert t[1..1 + |pat|] == pat[..|pat| - 1] + [pat[|pat| - 1]];
    assert pat[..|pat| - 1] + [pat[|pat| - 1]] == pat;
  }
}
