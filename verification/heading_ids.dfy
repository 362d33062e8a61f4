/** Unique heading ids for rendered documentation (fn0/control/rs/build.rs:444-501). */
module HeadingIds {
  import opened DocTypes
  import opened Collections
  import opened Decimals

  datatype Event =
    | StartHeading(id: Option<string>)
    | EndHeading
    | Text(text: string)
    | Code(text: string)
    | OtherEvent

  /** The Unicode classification and lower-casing `slugify` relies on. */
  datatype Unicode = Unicode(alphanumeric: char -> bool, whitespace: char -> bool, lower: char -> string)

  // ---- Slugs -----------------------------------------------------------------------------

  /** Lower-casing an alphanumeric character yields something, and never a dash. */
  ghost predicate Sane(unicode: Unicode) {
    forall c :: unicode.alphanumeric(c) ==> unicode.lower(c) != [] && '-' !in unicode.lower(c)
  }

  /** No dash at either end and no two dashes in a row. */
  ghost predicate WellFormedSlug(slug: string) {
    && (slug != [] ==> slug[0] != '-' && slug[|slug| - 1] != '-')
    && NoDoubleDash(slug)
  }

  ghost predicate NoDoubleDash(slug: string) {
    forall i :: 0 <= i < |slug| - 1 ==> slug[i] != '-' || slug[i + 1] != '-'
  }

  datatype Slugging = Slugging(slug: string, lastDash: bool)

  /** The slug while reading: a separator becomes one dash, unless a dash was just written. */
  function SlugSoFar(text: string, unicode: Unicode): Slugging {
    if text == [] then Slugging([], true)
    else
      var before, c := SlugSoFar(text[..|text| - 1], unicode), text[|text| - 1];
      if unicode.alphanumeric(c) then Slugging(before.slug + unicode.lower(c), false)
      else if (unicode.whitespace(c) || c == '-' || c == '_') && !before.lastDash
      then Slugging(before.slug + ['-'], true)
      else before
  }

  function TrimDashes(slug: string): string {
    if slug != [] && slug[|slug| - 1] == '-' then TrimDashes(slug[..|slug| - 1]) else slug
  }

  function Slug(text: string, unicode: Unicode): string {
    TrimDashes(SlugSoFar(text, unicode).slug)
  }

  method Slugify(text: string, unicode: Unicode) returns (slug: string)
    ensures slug == Slug(text, unicode)
  {
    slug := [];
    var lastDash := true;
    for i := 0 to |text|
      invariant Slugging(slug, lastDash) == SlugSoFar(text[..i], unicode)
    {
      assert text[..i + 1][..i] == text[..i];
      var c := text[i];
      if unicode.alphanumeric(c) {
        slug := slug + unicode.lower(c);
        lastDash := false;
      } else if (unicode.whitespace(c) || c == '-' || c == '_') && !lastDash {
        slug := slug + ['-'];
        lastDash := true;
      }
    }
    assert text[..|text|] == text;
    while slug != [] && slug[|slug| - 1] == '-'
      invariant TrimDashes(slug) == Slug(text, unicode)
      decreases |slug|
    {
      slug := slug[..|slug| - 1];
    }
  }

  ghost predicate HalfSlug(state: Slugging) {
    && NoDoubleDash(state.slug)
    && (state.slug != [] ==> state.slug[0] != '-')
    && (state.lastDash <==> state.slug == [] || state.slug[|state.slug| - 1] == '-')
  }

  lemma {:induction false} SlugSoFarShape(text: string, unicode: Unicode)
    requires Sane(unicode)
    ensures HalfSlug(SlugSoFar(text, unicode))
  {
    if text != [] {
      SlugSoFarShape(text[..|text| - 1], unicode);
    }
  }

  lemma {:induction false} TrimDashesShape(slug: string)
    requires NoDoubleDash(slug) && (slug != [] ==> slug[0] != '-')
    ensures WellFormedSlug(TrimDashes(slug))
  {
    if slug != [] && slug[|slug| - 1] == '-' {
      TrimDashesShape(slug[..|slug| - 1]);
    }
  }

  /** Every slug is free of dashes at its ends and of double dashes. */
  lemma SlugShape(text: string, unicode: Unicode)
    requires Sane(unicode)
    ensures WellFormedSlug(Slug(text, unicode))
  {
    SlugSoFarShape(text, unicode);
    TrimDashesShape(SlugSoFar(text, unicode).slug);
  }

  // ---- A slug is the words of its text -----------------------------------------------------

  predicate Separates(c: char, unicode: Unicode) {
    unicode.whitespace(c) || c == '-' || c == '_'
  }

  /** The words that have ended and the one being read. */
  datatype Reading = Reading(ended: seq<string>, current: string)

  function All(reading: Reading): seq<string> {
    if reading.current == [] then reading.ended else reading.ended + [reading.current]
  }

  function Read(text: string, unicode: Unicode): Reading {
    if text == [] then Reading([], [])
    else
      var before, c := Read(text[..|text| - 1], unicode), text[|text| - 1];
      if unicode.alphanumeric(c) then before.(current := before.current + unicode.lower(c))
      else if Separates(c, unicode) then Reading(All(before), [])
      else before
  }

  /** The words of a text: what stands between separators, lower-cased, without any other character. */
  function Words(text: string, unicode: Unicode): seq<string> {
    All(Read(text, unicode))
  }

  function Hyphenated(words: seq<string>): string {
    if words == [] then []
    else if |words| == 1 then words[0]
    else Hyphenated(words[..|words| - 1]) + ['-'] + words[|words| - 1]
  }

  ghost predicate ProperWords(words: seq<string>) {
    forall i :: 0 <= i < |words| ==> words[i] != [] && '-' !in words[i]
  }

  lemma HyphenatedSnoc(words: seq<string>, word: string)
    ensures Hyphenated(words + [word]) == if words == [] then word else Hyphenated(words) + ['-'] + word
  {
    assert (words + [word])[..|words|] == words;
  }

  lemma HyphenatedGrows(words: seq<string>, word: string, more: string)
    ensures Hyphenated(words + [word + more]) == Hyphenated(words + [word]) + more
  {
    HyphenatedSnoc(words, word);
    HyphenatedSnoc(words, word + more);
    if words != [] {
      Regroup(Hyphenated(words) + ['-'], word, more);
    }
  }

  /** The slug while reading is the words so far, and a dash if the last one has ended. */
  ghost predicate Spells(state: Slugging, reading: Reading) {
    && state.lastDash == (reading.current == [])
    && state.slug == if reading.current != [] then Hyphenated(reading.ended + [reading.current])
                     else if reading.ended == [] then []
                     else Hyphenated(reading.ended) + ['-']
  }

  lemma LetterSpells(state: Slugging, reading: Reading, more: string)
    requires Spells(state, reading) && more != []
    ensures Spells(Slugging(state.slug + more, false), reading.(current := reading.current + more))
  {
    var words := reading.ended;
    if reading.current != [] {
      HyphenatedGrows(words, reading.current, more);
    } else {
      HyphenatedSnoc(words, more);
      assert reading.current + more == more;
    }
  }

  lemma {:induction false} SlugSpells(text: string, unicode: Unicode)
    requires Sane(unicode)
    ensures Spells(SlugSoFar(text, unicode), Read(text, unicode))
    ensures ProperWords(All(Read(text, unicode)))
  {
    if text != [] {
      var init, c := text[..|text| - 1], text[|text| - 1];
      SlugSpells(init, unicode);
      if unicode.alphanumeric(c) {
        LetterSpells(SlugSoFar(init, unicode), Read(init, unicode), unicode.lower(c));
        ProperGrows(Read(init, unicode), unicode.lower(c));
      }
    }
  }

  lemma ProperGrows(reading: Reading, more: string)
    requires ProperWords(All(reading)) && more != [] && '-' !in more
    ensures ProperWords(All(reading.(current := reading.current + more)))
  {
    if reading.current != [] {
      assert All(reading)[|reading.ended|] == reading.current;
    }
    assert forall i :: 0 <= i < |reading.ended| ==> All(reading)[i] == reading.ended[i];
  }

  lemma HyphenatedEnds(words: seq<string>)
    requires ProperWords(words) && words != []
    ensures Hyphenated(words) != [] && Hyphenated(words)[|Hyphenated(words)| - 1] != '-'
  {
    var last := words[|words| - 1];
    assert last[|last| - 1] in last;
    assert Hyphenated(words)[|Hyphenated(words)| - 1] == last[|last| - 1];
  }

  lemma TrimsOneDash(slug: string)
    requires slug != [] && slug[|slug| - 1] != '-'
    ensures TrimDashes(slug) == slug && TrimDashes(slug + ['-']) == slug
  {
    assert (slug + ['-'])[..|slug|] == slug;
  }

  /**
   A slug is the words of its text in order, one dash between each two: it keeps exactly
   the lower-cased alphanumeric characters, and a dash stands exactly where separators
   come between two of them.
   */
  lemma SlugIsItsWords(text: string, unicode: Unicode)
    requires Sane(unicode)
    ensures Slug(text, unicode) == Hyphenated(Words(text, unicode))
    ensures ProperWords(Words(text, unicode))
  {
    SlugSpells(text, unicode);
    var words := Words(text, unicode);
    if words != [] {
      HyphenatedEnds(words);
      TrimsOneDash(Hyphenated(words));
    }
  }

  function Joined(words: seq<string>): string {
    if words == [] then [] else Joined(words[..|words| - 1]) + words[|words| - 1]
  }

  function Lowered(text: string, unicode: Unicode): string {
    if text == [] then []
    else
      Lowered(text[..|text| - 1], unicode)
      + if unicode.alphanumeric(text[|text| - 1]) then unicode.lower(text[|text| - 1]) else []
  }

  /** No character of a word is lost, added or moved. */
  lemma {:induction false} WordsKeepTheLetters(text: string, unicode: Unicode)
    ensures Joined(Words(text, unicode)) == Lowered(text, unicode)
    ensures Joined(Read(text, unicode).ended) + Read(text, unicode).current == Lowered(text, unicode)
  {
    if text != [] {
      var init, c := text[..|text| - 1], text[|text| - 1];
      WordsKeepTheLetters(init, unicode);
      var before := Read(init, unicode);
      if unicode.alphanumeric(c) {
        Regroup(Joined(before.ended), before.current, unicode.lower(c));
      }
    }
    var reading := Read(text, unicode);
    assert (reading.ended + [reading.current])[..|reading.ended|] == reading.ended;
  }

  // ---- The numbered candidates --------------------------------------------------------------

  /** The first candidate is the slug itself, the others carry a number. */
  function Candidate(slug: string, n: nat): string
    requires n >= 1
  {
    if n == 1 then slug else slug + "-" + Decimal(n)
  }

  lemma CandidatesDiffer(slug: string, m: nat, n: nat)
    requires 1 <= m < n
    ensures Candidate(slug, m) != Candidate(slug, n)
  {
    var b := Candidate(slug, n);
    if m == 1 {
      assert |b| > |slug|;
    } else if Candidate(slug, m) == b {
      var prefix := slug + "-";
      assert Candidate(slug, m)[|prefix|..] == Decimal(m);
      assert b[|prefix|..] == Decimal(n);
      DecimalInjective(m, n);
    }
  }

  function CandidateSet(slug: string, n: nat): set<string> {
    if n == 0 then {} else CandidateSet(slug, n - 1) + {Candidate(slug, n)}
  }

  lemma {:induction false} CandidateSetMembers(slug: string, n: nat, s: string)
    requires s in CandidateSet(slug, n)
    ensures exists m :: 1 <= m <= n && Candidate(slug, m) == s
  {
    if s != Candidate(slug, n) {
      CandidateSetMembers(slug, n - 1, s);
    }
  }

  lemma {:induction false} CandidateSetSize(slug: string, n: nat)
    ensures |CandidateSet(slug, n)| == n
  {
    if n > 0 {
      CandidateSetSize(slug, n - 1);
      if Candidate(slug, n) in CandidateSet(slug, n - 1) {
        CandidateSetMembers(slug, n - 1, Candidate(slug, n));
        var m :| 1 <= m <= n - 1 && Candidate(slug, m) == Candidate(slug, n);
        CandidatesDiffer(slug, m, n);
      }
    }
  }

  function Elements(items: seq<string>): set<string> {
    set i | 0 <= i < |items| :: items[i]
  }

  lemma {:induction false} ElementsSize(items: seq<string>)
    ensures |Elements(items)| <= |items|
  {
    if items != [] {
      var init := items[..|items| - 1];
      ElementsSize(init);
      assert Elements(items) == Elements(init) + {items[|items| - 1]};
    }
  }

  /** Only as many candidates can be taken as there are used slugs. */
  lemma Pigeonhole(used: seq<string>, slug: string, n: nat)
    requires forall m :: 1 <= m <= n ==> Candidate(slug, m) in used
    ensures n <= |used|
  {
    forall s | s in CandidateSet(slug, n) ensures s in Elements(used) {
      CandidateSetMembers(slug, n, s);
    }
    CandidateSetSize(slug, n);
    SubsetSize(CandidateSet(slug, n), Elements(used));
    ElementsSize(used);
  }

  /** The inner loop: the first candidate that is still free, found within `|used| + 1` tries. */
  method UniqueSlug(slug: string, used: seq<string>) returns (unique: string, n: nat)
    ensures unique !in used
    ensures 1 <= n <= |used| + 1 && unique == Candidate(slug, n)
    ensures forall m :: 1 <= m < n ==> Candidate(slug, m) in used
  {
    unique := slug;
    n := 1;
    while unique in used
      invariant n >= 1 && unique == Candidate(slug, n)
      invariant forall m :: 1 <= m < n ==> Candidate(slug, m) in used
      decreases |used| + 1 - n
    {
      Pigeonhole(used, slug, n);
      n := n + 1;
      unique := slug + "-" + Decimal(n);
    }
    Pigeonhole(used, slug, n - 1);
  }

  // ---- The whole document ----------------------------------------------------------------------

  /** The end of the heading that starts before `cursor`. */
  function HeadingEnd(events: seq<Event>, cursor: nat): (end: nat)
    requires cursor <= |events|
    ensures cursor <= end <= |events|
    decreases |events| - cursor
  {
    if cursor == |events| || events[cursor].EndHeading? then cursor else HeadingEnd(events, cursor + 1)
  }

  /** The headings without an id, from `index` on; nothing inside a heading is looked at. */
  function Untitled(events: seq<Event>, index: nat): set<nat>
    decreases |events| - index
  {
    if index >= |events| then {}
    else if events[index] == StartHeading(None)
    then {index} + Untitled(events, HeadingEnd(events, index + 1) + 1)
    else Untitled(events, index + 1)
  }

  lemma {:induction false} UntitledAhead(events: seq<Event>, index: nat, i: nat)
    requires i in Untitled(events, index)
    ensures index <= i < |events| && events[i] == StartHeading(None)
    decreases |events| - index
  {
    if events[index] == StartHeading(None) {
      if i != index {
        UntitledAhead(events, HeadingEnd(events, index + 1) + 1, i);
      }
    } else {
      UntitledAhead(events, index + 1, i);
    }
  }

  /** No heading starts inside another one. */
  ghost predicate NotNested(events: seq<Event>) {
    forall i, j :: 0 <= i < j < |events| && events[i].StartHeading? && events[j].StartHeading? ==>
      exists k :: i < k < j && events[k].EndHeading?
  }

  /** Where headings are not nested, every heading without an id gets one. */
  lemma {:induction false} EveryHeadingIsFound(events: seq<Event>, index: nat, i: nat)
    requires NotNested(events) && index <= i < |events| && events[i] == StartHeading(None)
    ensures i in Untitled(events, index)
    decreases |events| - index
  {
    if i != index {
      if events[index] == StartHeading(None) {
        var k :| index < k < i && events[k].EndHeading?;
        HeadingEndIsFirst(events, index + 1, k);
        EveryHeadingIsFound(events, HeadingEnd(events, index + 1) + 1, i);
      } else {
        EveryHeadingIsFound(events, index + 1, i);
      }
    }
  }

  lemma {:induction false} HeadingEndIsFirst(events: seq<Event>, cursor: nat, k: nat)
    requires cursor <= k < |events| && events[k].EndHeading?
    ensures HeadingEnd(events, cursor) <= k
    decreases k - cursor
  {
    if cursor < k {
      HeadingEndIsFirst(events, cursor + 1, k);
    }
  }

  /** A heading and the id chosen for it. */
  datatype Choice = Choice(index: nat, id: string)

  ghost predicate DistinctIds(choices: seq<Choice>) {
    forall i, j :: 0 <= i < j < |choices| ==> choices[i].id != choices[j].id && choices[i].index != choices[j].index
  }

  function Indices(choices: seq<Choice>): set<nat> {
    set i | 0 <= i < |choices| :: choices[i].index
  }

  /** The text of a heading: everything until its end, formatting aside. */
  function TextOf(events: seq<Event>, cursor: nat): string
    requires cursor <= |events|
    decreases |events| - cursor
  {
    if cursor == |events| || events[cursor].EndHeading? then []
    else if events[cursor].Text? || events[cursor].Code? then events[cursor].text + TextOf(events, cursor + 1)
    else TextOf(events, cursor + 1)
  }

  /** Text and code contribute their characters, every other event nothing. */
  function Shown(event: Event): string {
    match event
    case Text(text) => text
    case Code(text) => text
    case _ => []
  }

  function ShownBetween(events: seq<Event>, start: nat, end: nat): string
    requires start <= end <= |events|
  {
    if start == end then [] else ShownBetween(events, start, end - 1) + Shown(events[end - 1])
  }

  lemma {:induction false} ShownFrom(events: seq<Event>, start: nat, end: nat)
    requires start < end <= |events|
    ensures ShownBetween(events, start, end) == Shown(events[start]) + ShownBetween(events, start + 1, end)
    decreases end
  {
    if start + 1 < end {
      ShownFrom(events, start, end - 1);
      Regroup(Shown(events[start]), ShownBetween(events, start + 1, end - 1), Shown(events[end - 1]));
    } else {
      assert ShownBetween(events, start, start) == [];
    }
  }

  /** The text of a heading is all that is shown between its start and its end, in order. */
  lemma {:induction false} TextIsWhatIsShown(events: seq<Event>, cursor: nat)
    requires cursor <= |events|
    ensures TextOf(events, cursor) == ShownBetween(events, cursor, HeadingEnd(events, cursor))
    ensures forall k :: cursor <= k < HeadingEnd(events, cursor) ==> !events[k].EndHeading?
    ensures HeadingEnd(events, cursor) < |events| ==> events[HeadingEnd(events, cursor)].EndHeading?
    decreases |events| - cursor
  {
    if cursor < |events| && !events[cursor].EndHeading? {
      TextIsWhatIsShown(events, cursor + 1);
      ShownFrom(events, cursor, HeadingEnd(events, cursor));
    }
  }

  method HeadingText(events: seq<Event>, start: nat) returns (text: string, cursor: nat)
    requires start <= |events|
    ensures cursor == HeadingEnd(events, start) && text == TextOf(events, start)
  {
    text := [];
    cursor := start;
    while cursor < |events| && !events[cursor].EndHeading?
      invariant start <= cursor <= |events|
      invariant HeadingEnd(events, start) == HeadingEnd(events, cursor)
      invariant text + TextOf(events, cursor) == TextOf(events, start)
      decreases |events| - cursor
    {
      Regroup(text, Shown(events[cursor]), TextOf(events, cursor + 1));
      match events[cursor] {
        case Text(t) => text := text + t;
        case Code(t) => text := text + t;
        case _ =>
      }
      cursor := cursor + 1;
    }
  }

  /** The slug a heading starts from; a heading without any usable text is named after its position. */
  function BaseSlug(events: seq<Event>, index: nat, unicode: Unicode): string
    requires index < |events|
  {
    var slug := Slug(TextOf(events, index + 1), unicode);
    if slug == [] then "section-" + Decimal(index) else slug
  }

  /** A heading starts from its words, or from its position in the document if it has none. */
  lemma BaseSlugIsItsWords(events: seq<Event>, index: nat, unicode: Unicode)
    requires index < |events| && Sane(unicode)
    ensures var words := Words(TextOf(events, index + 1), unicode);
            && (words != [] ==> BaseSlug(events, index, unicode) == Hyphenated(words))
            && (words == [] ==> BaseSlug(events, index, unicode) == "section-" + Decimal(index))
    ensures BaseSlug(events, index, unicode) != []
  {
    var words := Words(TextOf(events, index + 1), unicode);
    SlugIsItsWords(TextOf(events, index + 1), unicode);
    if words != [] {
      HyphenatedEnds(words);
    }
  }

  /** The id is the first candidate of its slug that no earlier choice has taken. */
  ghost predicate FirstFree(slug: string, earlier: seq<Choice>, id: string) {
    exists n :: n >= 1 && id == Candidate(slug, n) && TakenBelow(slug, earlier, n)
  }

  ghost predicate TakenBelow(slug: string, earlier: seq<Choice>, n: nat) {
    forall m :: 1 <= m < n ==> TakenBy(earlier, Candidate(slug, m))
  }

  ghost predicate TakenBy(earlier: seq<Choice>, id: string) {
    exists i :: 0 <= i < |earlier| && earlier[i].id == id
  }

  /** Choices are listed in document order. */
  ghost predicate InDocumentOrder(choices: seq<Choice>) {
    forall i, j :: 0 <= i < j < |choices| ==> choices[i].index < choices[j].index
  }

  /**
   The ids a document must get: one for each untitled heading, in document order, each
   the first candidate that no earlier heading has taken.
   */
  ghost predicate Chosen(events: seq<Event>, unicode: Unicode, choices: seq<Choice>) {
    && DistinctIds(choices)
    && InDocumentOrder(choices)
    && Indices(choices) == Untitled(events, 0)
    && ChosenInOrder(events, unicode, choices)
  }

  ghost predicate ChosenInOrder(events: seq<Event>, unicode: Unicode, choices: seq<Choice>) {
    forall k :: 0 <= k < |choices| ==> ChosenRight(events, unicode, choices, k)
  }

  ghost predicate ChosenRight(events: seq<Event>, unicode: Unicode, choices: seq<Choice>, k: nat)
    requires k < |choices|
  {
    && choices[k].index < |events|
    && FirstFree(BaseSlug(events, choices[k].index, unicode), choices[..k], choices[k].id)
  }

  lemma ChosenSnoc(events: seq<Event>, unicode: Unicode, choices: seq<Choice>, choice: Choice)
    requires ChosenInOrder(events, unicode, choices) && choice.index < |events|
    requires FirstFree(BaseSlug(events, choice.index, unicode), choices, choice.id)
    ensures ChosenInOrder(events, unicode, choices + [choice])
  {
    var all := choices + [choice];
    forall k | 0 <= k < |all| ensures ChosenRight(events, unicode, all, k) {
      if k < |choices| {
        assert ChosenRight(events, unicode, choices, k);
        assert all[..k] == choices[..k] && all[k] == choices[k];
      } else {
        assert all[..k] == choices;
      }
    }
  }

  lemma UniqueIsFirstFree(slug: string, used: seq<string>, choices: seq<Choice>, unique: string, n: nat)
    requires |used| == |choices| && forall i :: 0 <= i < |used| ==> used[i] == choices[i].id
    requires n >= 1 && unique == Candidate(slug, n) && forall m :: 1 <= m < n ==> Candidate(slug, m) in used
    ensures FirstFree(slug, choices, unique)
  {
    forall m | 1 <= m < n ensures TakenBy(choices, Candidate(slug, m)) {
      var i :| 0 <= i < |used| && used[i] == Candidate(slug, m);
      assert choices[i].id == Candidate(slug, m);
    }
    assert TakenBelow(slug, choices, n);
  }

  /** The choices made for the headings before `index`, and the list of slugs they used. */
  ghost predicate Choosing(events: seq<Event>, unicode: Unicode, pending: seq<Choice>, used: seq<string>, index: nat) {
    && |used| == |pending|
    && (forall i :: 0 <= i < |used| ==> used[i] == pending[i].id)
    && DistinctIds(pending)
    && InDocumentOrder(pending)
    && (forall i :: 0 <= i < |pending| ==> pending[i].index < index)
    && Indices(pending) + Untitled(events, index) == Untitled(events, 0)
    && ChosenInOrder(events, unicode, pending)
  }

  lemma {:induction false} ChoosingStep(events: seq<Event>, unicode: Unicode, pending: seq<Choice>, used: seq<string>, index: nat, id: string)
    requires index < |events| && events[index] == StartHeading(None)
    requires Choosing(events, unicode, pending, used, index) && id !in used
    requires FirstFree(BaseSlug(events, index, unicode), pending, id)
    ensures Choosing(events, unicode, pending + [Choice(index, id)], used + [id], HeadingEnd(events, index + 1) + 1)
  {
    ChosenSnoc(events, unicode, pending, Choice(index, id));
    IndicesSnoc(pending, Choice(index, id));
    MoveAcross(Indices(pending), index, Untitled(events, HeadingEnd(events, index + 1) + 1));
  }

  lemma MoveAcross(done: set<nat>, index: nat, rest: set<nat>)
    ensures done + ({index} + rest) == (done + {index}) + rest
  {
  }

  lemma ChoosingSkip(events: seq<Event>, unicode: Unicode, pending: seq<Choice>, used: seq<string>, index: nat)
    requires index < |events| && events[index] != StartHeading(None)
    requires Choosing(events, unicode, pending, used, index)
    ensures Choosing(events, unicode, pending, used, index + 1)
  {
  }

  lemma ChoosingDone(events: seq<Event>, unicode: Unicode, pending: seq<Choice>, used: seq<string>, index: nat)
    requires index >= |events| && Choosing(events, unicode, pending, used, index)
    ensures Chosen(events, unicode, pending)
  {
  }

  /** The id of one heading and the position of its end. */
  method ChooseId(events: seq<Event>, unicode: Unicode, index: nat, used: seq<string>, ghost pending: seq<Choice>)
    returns (id: string, end: nat)
    requires index < |events|
    requires |used| == |pending| && forall i :: 0 <= i < |used| ==> used[i] == pending[i].id
    ensures id !in used && end == HeadingEnd(events, index + 1)
    ensures FirstFree(BaseSlug(events, index, unicode), pending, id)
  {
    var text, cursor := HeadingText(events, index + 1);
    var slug := Slugify(text, unicode);
    if slug == [] {
      slug := "section-" + Decimal(index);
    }
    var unique, n := UniqueSlug(slug, used);
    UniqueIsFirstFree(slug, used, pending, unique, n);
    return unique, cursor;
  }

  /** The first pass of `add_heading_ids`. */
  method ChooseIds(events: seq<Event>, unicode: Unicode) returns (pending: seq<Choice>)
    ensures Chosen(events, unicode, pending)
  {
    pending := [];
    var used: seq<string> := [];
    var index := 0;
    while index < |events|
      invariant Choosing(events, unicode, pending, used, index)
      decreases |events| - index
    {
      if events[index] == StartHeading(None) {
        var id, end := ChooseId(events, unicode, index, used, pending);
        ChoosingStep(events, unicode, pending, used, index, id);
        used := used + [id];
        pending := pending + [Choice(index, id)];
        index := end;
      } else {
        ChoosingSkip(events, unicode, pending, used, index);
      }
      index := index + 1;
    }
    ChoosingDone(events, unicode, pending, used, index);
  }

  lemma IndicesSnoc(choices: seq<Choice>, choice: Choice)
    ensures Indices(choices + [choice]) == Indices(choices) + {choice.index}
  {
    var all := choices + [choice];
    assert forall i :: 0 <= i < |choices| ==> all[i] == choices[i];
    assert all[|choices|] == choice;
  }
}
