/**
 Reading a ListObjectsV2 response by text search (object-storage/src/http.rs:297-353),
 against the printing it has to undo: character data escaped as in sections 2.4 and
 4.6 of XML 1.0.
 */
module ListXml {
  import opened DocTypes
  import opened Decimals

  // ---- Search and replace ----------------------------------------------------------

  predicate StartsWith(text: string, pattern: string) {
    |pattern| <= |text| && text[..|pattern|] == pattern
  }

  /** `str::find`: the first position where the pattern occurs. */
  function Find(text: string, pattern: string): (at: Option<nat>)
    ensures at.Some? ==> at.value + |pattern| <= |text|
  {
    if |text| < |pattern| then None
    else if StartsWith(text, pattern) then Some(0)
    else
      var rest := Find(text[1..], pattern);
      if rest.Some? then Some(rest.value + 1) else None
  }

  /** `str::replace`: every occurrence, left to right, without overlap. */
  function Replace(text: string, pattern: string, sub: string): string
    requires pattern != []
    decreases |text|
  {
    if text == [] then []
    else if StartsWith(text, pattern) then sub + Replace(text[|pattern|..], pattern, sub)
    else [text[0]] + Replace(text[1..], pattern, sub)
  }

  // ---- Escaping and unescaping -------------------------------------------------------

  const SPECIAL: set<char> := {'&', '<', '>', '\"', '\''}

  function Entity(c: char): string
    requires c in SPECIAL
  {
    if c == '&' then "&amp;" else if c == '<' then "&lt;" else if c == '>' then "&gt;"
    else if c == '\"' then "&quot;" else "&apos;"
  }

  /** Writes the given special characters as entities. */
  function Escape(text: string, which: set<char>): string
    requires which <= SPECIAL
  {
    if text == [] then []
    else (if text[0] in which then Entity(text[0]) else [text[0]]) + Escape(text[1..], which)
  }

  /** `xml_unescape`: five replaces, one after the other. */
  function Unescape(text: string): string {
    Replace(Replace(Replace(Replace(Replace(text,
      "&lt;", "<"), "&gt;", ">"), "&quot;", "\""), "&apos;", "'"), "&amp;", "&")
  }

  /** Text without the first character of the pattern is copied unchanged. */
  lemma {:induction false} ReplaceSkips(head: string, tail: string, pattern: string, sub: string)
    requires pattern != [] && pattern[0] !in head
    ensures Replace(head + tail, pattern, sub) == head + Replace(tail, pattern, sub)
  {
    if head == [] {
      assert head + tail == tail;
    } else {
      assert (head + tail)[0] == head[0];
      assert (head + tail)[1..] == head[1..] + tail;
      ReplaceSkips(head[1..], tail, pattern, sub);
      assert head == [head[0]] + head[1..];
    }
  }

  lemma EntityShape(c: char)
    requires c in SPECIAL
    ensures |Entity(c)| >= 4 && Entity(c)[0] == '&' && '&' !in Entity(c)[1..]
  {
    assert Entity('&')[1..] == "amp;";
    assert Entity('<')[1..] == "lt;";
    assert Entity('>')[1..] == "gt;";
    assert Entity('\"')[1..] == "quot;";
    assert Entity('\'')[1..] == "apos;";
  }

  /** No entity is the beginning of a text that starts with a different one. */
  lemma EntitiesDiffer(c: char, d: char, tail: string)
    requires c in SPECIAL && d in SPECIAL && c != d
    ensures !StartsWith(Entity(c) + tail, Entity(d))
  {
    var text := Entity(c) + tail;
    assert text[1] == Entity(c)[1] && text[2] == Entity(c)[2];
  }

  lemma ReplaceKeepsOtherEntity(c: char, d: char, tail: string)
    requires c in SPECIAL && d in SPECIAL && c != d
    ensures Replace(Entity(c) + tail, Entity(d), [d]) == Entity(c) + Replace(tail, Entity(d), [d])
  {
    EntityShape(c);
    EntityShape(d);
    EntitiesDiffer(c, d, tail);
    var entity := Entity(c);
    assert (entity + tail)[1..] == entity[1..] + tail;
    ReplaceSkips(entity[1..], tail, Entity(d), [d]);
    assert entity == [entity[0]] + entity[1..];
  }

  /** As long as ampersands are escaped, one replace undoes the escaping of one character. */
  lemma {:induction false} ReplaceUndoesOne(text: string, which: set<char>, c: char)
    requires which <= SPECIAL && '&' in which && c in which
    ensures Replace(Escape(text, which), Entity(c), [c]) == Escape(text, which - {c})
  {
    if text != [] {
      ReplaceUndoesOne(text[1..], which, c);
      var tail := Escape(text[1..], which);
      EntityShape(c);
      if text[0] == c {
        assert StartsWith(Entity(c) + tail, Entity(c));
        assert (Entity(c) + tail)[|Entity(c)|..] == tail;
      } else if text[0] in which {
        ReplaceKeepsOtherEntity(text[0], c, tail);
      } else {
        ReplaceSkips([text[0]], tail, Entity(c), [c]);
      }
    }
  }

  lemma {:induction false} EscapeNothing(text: string)
    ensures Escape(text, {}) == text
  {
    if text != [] {
      EscapeNothing(text[1..]);
      assert text == [text[0]] + text[1..];
    }
  }

  lemma UndoOne(text: string, which: set<char>, c: char, entity: string, plain: string)
    requires which <= SPECIAL && '&' in which && c in which
    requires entity == Entity(c) && plain == [c]
    ensures Replace(Escape(text, which), entity, plain) == Escape(text, which - {c})
  {
    ReplaceUndoesOne(text, which, c);
  }

  /** Unescaping undoes escaping for every string, also one that already looks like entities. */
  lemma UnescapeEscape(text: string)
    ensures Unescape(Escape(text, SPECIAL)) == text
  {
    var s1 := SPECIAL - {'<'};
    var s2 := s1 - {'>'};
    var s3 := s2 - {'\"'};
    var s4 := s3 - {'\''};
    UndoOne(text, SPECIAL, '<', "&lt;", "<");
    UndoOne(text, s1, '>', "&gt;", ">");
    UndoOne(text, s2, '\"', "&quot;", "\"");
    UndoOne(text, s3, '\'', "&apos;", "'");
    UndoOne(text, s4, '&', "&amp;", "&");
    assert s4 - {'&'} == {};
    EscapeNothing(text);
  }

  // ---- Finding tags ---------------------------------------------------------------------

  /** A tag opens with its only `<` and ends with its only `>`. */
  ghost predicate TagLike(pattern: string) {
    && |pattern| >= 2
    && pattern[0] == '<' && pattern[|pattern| - 1] == '>'
    && (forall i :: 1 <= i < |pattern| ==> pattern[i] != '<')
    && (forall i :: 0 <= i < |pattern| - 1 ==> pattern[i] != '>')
  }

  /** Every `<` is followed by a `>`: no tag is cut off at the end. */
  ghost predicate Closed(text: string) {
    forall i :: 0 <= i < |text| && text[i] == '<' ==> exists j :: i < j < |text| && text[j] == '>'
  }

  /** The text is closed and does not contain the tag. */
  ghost predicate FreeOf(text: string, pattern: string) {
    Closed(text) && Find(text, pattern).None?
  }

  /** No occurrence starts in a closed text and ends beyond it. */
  lemma NoStraddle(head: string, tail: string, pattern: string)
    requires TagLike(pattern) && Closed(head) && head != []
    requires StartsWith(head + tail, pattern)
    ensures StartsWith(head, pattern)
  {
    var text := head + tail;
    assert text[0] == pattern[0];
    var j :| 0 < j < |head| && head[j] == '>';
    assert text[j] == '>';
    assert j < |pattern| ==> pattern[j] == text[..|pattern|][j];
    assert |pattern| <= |head|;
    assert head[..|pattern|] == text[..|pattern|];
  }

  lemma ClosedTail(text: string)
    requires Closed(text) && text != []
    ensures Closed(text[1..])
  {
    var rest := text[1..];
    forall i | 0 <= i < |rest| && rest[i] == '<' ensures exists j :: i < j < |rest| && rest[j] == '>' {
      assert text[i + 1] == '<';
      var j :| i + 1 < j < |text| && text[j] == '>';
      assert rest[j - 1] == '>';
    }
  }

  /** Search passes over a closed text that does not contain the tag. */
  lemma {:induction false} FindSkips(head: string, tail: string, pattern: string)
    requires TagLike(pattern) && FreeOf(head, pattern)
    ensures Find(head + tail, pattern)
            == if Find(tail, pattern).Some? then Some(|head| + Find(tail, pattern).value) else None
  {
    if head == [] {
      assert head + tail == tail;
    } else {
      var text := head + tail;
      assert text[1..] == head[1..] + tail;
      FindInTail(head, pattern);
      ClosedTail(head);
      FindSkips(head[1..], tail, pattern);
      if StartsWith(text, pattern) {
        NoStraddle(head, tail, pattern);
        assert false;
      }
    }
  }

  lemma FindInTail(text: string, pattern: string)
    requires text != [] && Find(text, pattern).None?
    ensures Find(text[1..], pattern).None? && !StartsWith(text, pattern)
  {
  }

  /** The first tag after a free text is where it was put. */
  lemma FindCut(before: string, pattern: string, after: string)
    requires TagLike(pattern) && FreeOf(before, pattern)
    ensures var text := before + (pattern + after);
            && Find(text, pattern) == Some(|before|)
            && text[..|before|] == before
            && text[|before| + |pattern|..] == after
  {
    assert (pattern + after)[..|pattern|] == pattern;
    FindSkips(before, pattern + after, pattern);
  }

  lemma {:induction false} NoBracketNoTag(text: string, pattern: string)
    requires TagLike(pattern) && '<' !in text
    ensures FreeOf(text, pattern)
  {
    if text != [] {
      NoBracketNoTag(text[1..], pattern);
      assert text[0] != pattern[0];
    }
  }

  /** A tag that is not the one searched for is passed over. */
  lemma OtherTag(tag: string, pattern: string)
    requires TagLike(tag) && TagLike(pattern) && tag != pattern
    ensures FreeOf(tag, pattern)
  {
    NoBracketNoTag(tag[1..], pattern);
    assert tag[..|tag|] == tag;
  }

  lemma FreeConcat(head: string, tail: string, pattern: string)
    requires TagLike(pattern) && FreeOf(head, pattern) && FreeOf(tail, pattern)
    ensures FreeOf(head + tail, pattern)
  {
    FindSkips(head, tail, pattern);
    ClosedConcat(head, tail);
  }

  lemma ClosedConcat(head: string, tail: string)
    requires Closed(head) && Closed(tail)
    ensures Closed(head + tail)
  {
    var text := head + tail;
    forall i | 0 <= i < |text| && text[i] == '<' ensures exists j :: i < j < |text| && text[j] == '>' {
      if i < |head| {
        assert head[i] == '<';
        var j :| i < j < |head| && head[j] == '>';
        assert text[j] == '>';
      } else {
        assert tail[i - |head|] == '<';
        var j :| i - |head| < j < |tail| && tail[j] == '>';
        assert text[|head| + j] == '>';
      }
    }
  }

  // ---- The reader ----------------------------------------------------------------------

  function Open(tag: string): string { "<" + tag + ">" }

  function Close(tag: string): string { "</" + tag + ">" }

  /** The text between the first opening tag and the next closing tag. */
  function Between(text: string, open: string, close: string): Option<string> {
    match Find(text, open)
    case None => None
    case Some(at) =>
      var rest := text[at + |open|..];
      match Find(rest, close)
      case None => None
      case Some(end) => Some(rest[..end])
  }

  /** `extract_tag`. */
  function ExtractTag(text: string, tag: string): Option<string> {
    Between(text, Open(tag), Close(tag))
  }

  datatype Block = Block(content: string, rest: string)

  /** The first block and the text after its closing tag. */
  function NextBlock(text: string, open: string, close: string): (block: Option<Block>)
    requires open != []
    ensures block.Some? ==> |block.value.rest| < |text|
  {
    match Find(text, open)
    case None => None
    case Some(at) =>
      var rest := text[at + |open|..];
      match Find(rest, close)
      case None => None
      case Some(end) => Some(Block(rest[..end], rest[end + |close|..]))
  }

  /** All texts between an opening tag and the closing tag that follows it. */
  function Blocks(text: string, open: string, close: string): seq<string>
    requires open != []
    decreases |text|
  {
    var next := NextBlock(text, open, close);
    if next.None? then [] else [next.value.content] + Blocks(next.value.rest, open, close)
  }

  method FindBlock(text: string, open: string, close: string) returns (block: Option<Block>)
    requires open != []
    ensures block == NextBlock(text, open, close)
  {
    var start := Find(text, open);
    if start.None? {
      return None;
    }
    var afterOpen := text[start.value + |open|..];
    var end := Find(afterOpen, close);
    if end.None? {
      return None;
    }
    return Some(Block(afterOpen[..end.value], afterOpen[end.value + |close|..]));
  }

  /** The loop of `extract_blocks` over a shrinking rest. */
  method BlocksBetween(text: string, open: string, close: string) returns (blocks: seq<string>)
    requires open != []
    ensures blocks == Blocks(text, open, close)
  {
    blocks := [];
    var rest := text;
    while true
      invariant blocks + Blocks(rest, open, close) == Blocks(text, open, close)
      decreases |rest|
    {
      var block := FindBlock(rest, open, close);
      if block.None? {
        return;
      }
      blocks := blocks + [block.value.content];
      rest := block.value.rest;
    }
  }

  /** `extract_blocks`. */
  method ExtractBlocks(text: string, tag: string) returns (blocks: seq<string>)
    ensures blocks == Blocks(text, Open(tag), Close(tag))
  {
    blocks := BlocksBetween(text, Open(tag), Close(tag));
  }

  /** Rust's `char::is_whitespace`. */
  predicate IsSpace(c: char) {
    || '\U{9}' <= c <= '\U{D}' || c == ' ' || c == '\U{85}' || c == '\U{A0}' || c == '\U{1680}'
    || '\U{2000}' <= c <= '\U{200A}' || c == '\U{2028}' || c == '\U{2029}' || c == '\U{202F}'
    || c == '\U{205F}' || c == '\U{3000}'
  }

  function TrimStart(text: string): string {
    if text != [] && IsSpace(text[0]) then TrimStart(text[1..]) else text
  }

  function TrimEnd(text: string): string {
    if text != [] && IsSpace(text[|text| - 1]) then TrimEnd(text[..|text| - 1]) else text
  }

  function Trim(text: string): string {
    TrimEnd(TrimStart(text))
  }

  datatype Entry = Entry(key: string, size: nat)

  datatype ObjectList = ObjectList(entries: seq<Entry>, cursor: Option<string>)

  function SizeOf(text: Option<string>): nat {
    if text.None? then 0
    else
      var n := ParseU64(Trim(text.value));
      if n.Some? then n.value else 0
  }

  /** One `Contents` block; only a missing key is an error. */
  function EntryOf(block: string): Result<Entry> {
    match ExtractTag(block, "Key")
    case None => Err
    case Some(key) => Ok(Entry(Unescape(key), SizeOf(ExtractTag(block, "Size"))))
  }

  function EntriesOf(blocks: seq<string>): Result<seq<Entry>> {
    if blocks == [] then Ok([])
    else match EntryOf(blocks[0])
      case Err => Err
      case Ok(entry) =>
        match EntriesOf(blocks[1..])
        case Err => Err
        case Ok(rest) => Ok([entry] + rest)
  }

  predicate SaysTrue(flag: Option<string>) {
    flag.Some? && Trim(flag.value) == "true"
  }

  function CursorOf(entries: seq<Entry>, truncated: bool): Option<string> {
    if truncated && entries != [] then Some(entries[|entries| - 1].key) else None
  }

  function Parsed(text: string): Result<ObjectList> {
    match EntriesOf(Blocks(text, Open("Contents"), Close("Contents")))
    case Err => Err
    case Ok(entries) => Ok(ObjectList(entries, CursorOf(entries, SaysTrue(ExtractTag(text, "IsTruncated")))))
  }

  function Prepend(first: seq<Entry>, rest: Result<seq<Entry>>): Result<seq<Entry>> {
    if rest.Ok? then Ok(first + rest.value) else Err
  }

  lemma PrependNothing(rest: Result<seq<Entry>>)
    ensures Prepend([], rest) == rest
  {
    if rest.Ok? {
      assert [] + rest.value == rest.value;
    }
  }

  lemma EntriesStep(blocks: seq<string>, i: nat, first: seq<Entry>)
    requires i < |blocks|
    ensures Prepend(first, EntriesOf(blocks[i..]))
            == if EntryOf(blocks[i]).Err? then Err
               else Prepend(first + [EntryOf(blocks[i]).value], EntriesOf(blocks[i + 1..]))
  {
    assert blocks[i..][1..] == blocks[i + 1..];
    if EntryOf(blocks[i]).Ok? && EntriesOf(blocks[i + 1..]).Ok? {
      var e, rest := EntryOf(blocks[i]).value, EntriesOf(blocks[i + 1..]).value;
      assert first + ([e] + rest) == (first + [e]) + rest;
    }
  }

  /** `parse_list_xml` on a body that is valid UTF-8. */
  method ParseListXml(text: string) returns (list: Result<ObjectList>)
    ensures list == Parsed(text)
  {
    var blocks := ExtractBlocks(text, "Contents");
    var entries := ReadEntries(blocks);
    if entries.Err? {
      return Err;
    }
    var truncated := SaysTrue(ExtractTag(text, "IsTruncated"));
    return Ok(ObjectList(entries.value, CursorOf(entries.value, truncated)));
  }

  /** The loop of `parse_list_xml` over the blocks. */
  method ReadEntries(blocks: seq<string>) returns (entries: Result<seq<Entry>>)
    ensures entries == EntriesOf(blocks)
  {
    var read: seq<Entry> := [];
    assert blocks[0..] == blocks;
    PrependNothing(EntriesOf(blocks));
    for i := 0 to |blocks|
      invariant Prepend(read, EntriesOf(blocks[i..])) == EntriesOf(blocks)
    {
      EntriesStep(blocks, i, read);
      var entry := EntryOf(blocks[i]);
      if entry.Err? {
        return Err;
      }
      read := read + [entry.value];
    }
    assert read + [] == read;
    return Ok(read);
  }

  // ---- The writer -----------------------------------------------------------------------

  /** One listed object, with whatever else the server writes around its key and size. */
  datatype Item = Item(lead: string, key: string, mid: string, size: nat, tail: string)

  /** The children of the response in document order. */
  datatype Node = Other(text: string) | Flag(truncated: bool) | Object(item: Item)

  function Tagged(tag: string, content: string): string {
    Open(tag) + (content + Close(tag))
  }

  function Inner(item: Item): string {
    item.lead + (Tagged("Key", Escape(item.key, SPECIAL)) + (item.mid + (Tagged("Size", Decimal(item.size)) + item.tail)))
  }

  function Word(b: bool): string { if b then "true" else "false" }

  function Print(node: Node): string {
    match node
    case Other(text) => text
    case Flag(truncated) => Tagged("IsTruncated", Word(truncated))
    case Object(item) => Tagged("Contents", Inner(item))
  }

  function Body(nodes: seq<Node>): string {
    if nodes == [] then "" else Print(nodes[0]) + Body(nodes[1..])
  }

  ghost predicate ItemFreeOf(item: Item, pattern: string) {
    FreeOf(item.lead, pattern) && FreeOf(item.mid, pattern) && FreeOf(item.tail, pattern)
  }

  /** The surrounding text is closed and does not use the tags the reader looks for. */
  ghost predicate GoodItem(item: Item) {
    && item.size < U64_LIMIT
    && FreeOf(item.lead, Open("Key"))
    && FreeOf(item.lead, Open("Size")) && FreeOf(item.mid, Open("Size"))
    && ItemFreeOf(item, Close("Contents"))
    && ItemFreeOf(item, Open("IsTruncated"))
  }

  ghost predicate GoodNode(node: Node) {
    match node
    case Other(text) => FreeOf(text, Open("Contents")) && FreeOf(text, Open("IsTruncated"))
    case Flag(_) => true
    case Object(item) => GoodItem(item)
  }

  function Listed(nodes: seq<Node>): seq<Entry> {
    if nodes == [] then []
    else (if nodes[0].Object? then [Entry(nodes[0].item.key, nodes[0].item.size)] else []) + Listed(nodes[1..])
  }

  /** The first flag counts; a response without one is not truncated. */
  predicate Truncated(nodes: seq<Node>) {
    nodes != [] && (if nodes[0].Flag? then nodes[0].truncated else Truncated(nodes[1..]))
  }

  // ---- What the reader finds in what the writer wrote: any tags ------------------------

  /** Skip a free text, read the opening tag, then find the closing one. */
  lemma BetweenCut(lead: string, open: string, content: string, close: string, rest: string)
    requires TagLike(open) && TagLike(close) && FreeOf(lead, open) && FreeOf(content, close)
    ensures Between(lead + (open + (content + (close + rest))), open, close) == Some(content)
  {
    FindCut(lead, open, content + (close + rest));
    FindCut(content, close, rest);
  }

  lemma BetweenSkips(head: string, rest: string, open: string, close: string)
    requires TagLike(open) && FreeOf(head, open)
    ensures Between(head + rest, open, close) == Between(rest, open, close)
  {
    FindSkips(head, rest, open);
    var at := Find(rest, open);
    if at.Some? {
      assert (head + rest)[|head| + at.value + |open|..] == rest[at.value + |open|..];
    }
  }

  lemma NextSkips(head: string, rest: string, open: string, close: string)
    requires TagLike(open) && FreeOf(head, open)
    ensures NextBlock(head + rest, open, close) == NextBlock(rest, open, close)
  {
    FindSkips(head, rest, open);
    var at := Find(rest, open);
    if at.Some? {
      assert (head + rest)[|head| + at.value + |open|..] == rest[at.value + |open|..];
    }
  }

  lemma BlocksSkip(head: string, rest: string, open: string, close: string)
    requires TagLike(open) && FreeOf(head, open)
    ensures Blocks(head + rest, open, close) == Blocks(rest, open, close)
  {
    NextSkips(head, rest, open, close);
  }

  lemma NextCut(open: string, content: string, close: string, rest: string)
    requires TagLike(open) && TagLike(close) && FreeOf(content, close)
    ensures NextBlock((open + (content + close)) + rest, open, close) == Some(Block(content, rest))
  {
    Rebracket([], open, content, close, rest);
    var text := (open + (content + close)) + rest;
    assert [] + text == text;
    FindCut([], open, content + (close + rest));
    FindCut(content, close, rest);
  }

  lemma BlocksCut(open: string, content: string, close: string, rest: string)
    requires TagLike(open) && TagLike(close) && FreeOf(content, close)
    ensures Blocks((open + (content + close)) + rest, open, close) == [content] + Blocks(rest, open, close)
  {
    NextCut(open, content, close, rest);
  }

  /** A tagged text without other tags is passed over in search of another tag. */
  lemma TaggedFree(open: string, content: string, close: string, pattern: string)
    requires TagLike(open) && TagLike(close) && TagLike(pattern) && open != pattern && close != pattern
    requires FreeOf(content, pattern)
    ensures FreeOf(open + (content + close), pattern)
  {
    OtherTag(open, pattern);
    OtherTag(close, pattern);
    FreeConcat(content, close, pattern);
    FreeConcat(open, content + close, pattern);
  }

  lemma FiveFree(a: string, b: string, c: string, d: string, e: string, pattern: string)
    requires TagLike(pattern) && FreeOf(a, pattern) && FreeOf(b, pattern) && FreeOf(c, pattern)
    requires FreeOf(d, pattern) && FreeOf(e, pattern)
    ensures FreeOf(a + (b + (c + (d + e))), pattern)
  {
    FreeConcat(d, e, pattern);
    FreeConcat(c, d + e, pattern);
    FreeConcat(b, c + (d + e), pattern);
    FreeConcat(a, b + (c + (d + e)), pattern);
  }

  lemma TrimKeepsSolid(text: string)
    requires text != [] && !IsSpace(text[0]) && !IsSpace(text[|text| - 1])
    ensures Trim(text) == text
  {
  }

  // ---- The tags in use --------------------------------------------------------------------

  lemma TagIsTagLike(tag: string)
    requires '<' !in tag && '>' !in tag
    ensures TagLike(Open(tag)) && TagLike(Close(tag))
  {
  }

  lemma TagsInUse()
    ensures TagLike(Open("Key")) && TagLike(Close("Key")) && TagLike(Open("Size")) && TagLike(Close("Size"))
    ensures TagLike(Open("Contents")) && TagLike(Close("Contents"))
    ensures TagLike(Open("IsTruncated")) && TagLike(Close("IsTruncated"))
  {
    TagIsTagLike("Key");
    TagIsTagLike("Size");
    TagIsTagLike("Contents");
    TagIsTagLike("IsTruncated");
  }

  /** The key and size tags are none of those the reader looks for around them. */
  ghost predicate Unrelated(pattern: string) {
    && TagLike(pattern)
    && pattern != Open("Key") && pattern != Close("Key")
    && pattern != Open("Size") && pattern != Close("Size")
    && pattern != Open("Contents")
  }

  lemma TagsDiffer()
    ensures Unrelated(Close("Contents")) && Unrelated(Open("IsTruncated"))
    ensures Open("Size") != Open("Key") && Open("Size") != Close("Key")
    ensures Open("IsTruncated") != Close("Contents")
    ensures Open("IsTruncated") != Open("Contents") && Close("IsTruncated") != Open("Contents")
  {
    TagsInUse();
    assert |Open("Key")| == 5 && |Close("Key")| == 6 && |Open("Size")| == 6 && |Close("Size")| == 7;
    assert |Open("Contents")| == 10 && |Close("Contents")| == 11 && |Open("IsTruncated")| == 13;
    assert |Close("IsTruncated")| == 14;
    assert Open("Size")[1] == 'S' && Close("Key")[1] == '/';
  }

  lemma {:induction false} EscapedHasNoBracket(text: string)
    ensures '<' !in Escape(text, SPECIAL)
  {
    if text != [] {
      EscapedHasNoBracket(text[1..]);
    }
  }

  lemma KeyFree(key: string, pattern: string)
    requires TagLike(pattern) && pattern != Open("Key") && pattern != Close("Key")
    ensures FreeOf(Tagged("Key", Escape(key, SPECIAL)), pattern)
  {
    TagsInUse();
    EscapedHasNoBracket(key);
    NoBracketNoTag(Escape(key, SPECIAL), pattern);
    TaggedFree(Open("Key"), Escape(key, SPECIAL), Close("Key"), pattern);
  }

  lemma SizeFree(size: nat, pattern: string)
    requires TagLike(pattern) && pattern != Open("Size") && pattern != Close("Size")
    ensures FreeOf(Tagged("Size", Decimal(size)), pattern)
  {
    TagsInUse();
    NoBracketNoTag(Decimal(size), pattern);
    TaggedFree(Open("Size"), Decimal(size), Close("Size"), pattern);
  }

  lemma InnerFree(item: Item, pattern: string)
    requires Unrelated(pattern) && ItemFreeOf(item, pattern)
    ensures FreeOf(Inner(item), pattern)
  {
    KeyFree(item.key, pattern);
    SizeFree(item.size, pattern);
    FiveFree(item.lead, Tagged("Key", Escape(item.key, SPECIAL)), item.mid,
             Tagged("Size", Decimal(item.size)), item.tail, pattern);
  }

  // ---- Objects --------------------------------------------------------------------------------

  /** Both ways of bracketing a tagged text inside a longer one. */
  lemma Rebracket(lead: string, open: string, content: string, close: string, rest: string)
    ensures lead + ((open + (content + close)) + rest) == lead + (open + (content + (close + rest)))
  {
  }

  lemma KeyIsRead(item: Item)
    requires GoodItem(item)
    ensures ExtractTag(Inner(item), "Key") == Some(Escape(item.key, SPECIAL))
  {
    TagsInUse();
    EscapedHasNoBracket(item.key);
    var escaped := Escape(item.key, SPECIAL);
    NoBracketNoTag(escaped, Close("Key"));
    var rest := item.mid + (Tagged("Size", Decimal(item.size)) + item.tail);
    Rebracket(item.lead, Open("Key"), escaped, Close("Key"), rest);
    BetweenCut(item.lead, Open("Key"), escaped, Close("Key"), rest);
  }

  lemma SizeIsRead(item: Item)
    requires GoodItem(item)
    ensures ExtractTag(Inner(item), "Size") == Some(Decimal(item.size))
  {
    TagsInUse();
    TagsDiffer();
    var digits := Decimal(item.size);
    var key := Tagged("Key", Escape(item.key, SPECIAL));
    KeyFree(item.key, Open("Size"));
    FreeConcat(item.lead, key, Open("Size"));
    FreeConcat(item.lead + key, item.mid, Open("Size"));
    NoBracketNoTag(digits, Close("Size"));
    var head := (item.lead + key) + item.mid;
    InnerRegroups(item, head);
    Rebracket(head, Open("Size"), digits, Close("Size"), item.tail);
    BetweenCut(head, Open("Size"), digits, Close("Size"), item.tail);
  }

  lemma InnerRegroups(item: Item, head: string)
    requires head == (item.lead + Tagged("Key", Escape(item.key, SPECIAL))) + item.mid
    ensures Inner(item) == head + (Tagged("Size", Decimal(item.size)) + item.tail)
  {
  }

  lemma SizeRoundTrip(size: nat)
    requires size < U64_LIMIT
    ensures SizeOf(Some(Decimal(size))) == size
  {
    var digits := Decimal(size);
    assert IsDigit(digits[0]) && IsDigit(digits[|digits| - 1]);
    TrimKeepsSolid(digits);
    ParseDecimal(size);
  }

  /** One object block is read back as its key and size. */
  lemma EntryRoundTrip(item: Item)
    requires GoodItem(item)
    ensures EntryOf(Inner(item)) == Ok(Entry(item.key, item.size))
  {
    KeyIsRead(item);
    UnescapeEscape(item.key);
    SizeIsRead(item);
    SizeRoundTrip(item.size);
  }

  function InnersOf(nodes: seq<Node>): seq<string> {
    if nodes == [] then []
    else (if nodes[0].Object? then [Inner(nodes[0].item)] else []) + InnersOf(nodes[1..])
  }

  lemma NodeBlocks(node: Node, rest: string)
    requires GoodNode(node)
    ensures Blocks(Print(node) + rest, Open("Contents"), Close("Contents"))
            == (if node.Object? then [Inner(node.item)] else []) + Blocks(rest, Open("Contents"), Close("Contents"))
  {
    TagsInUse();
    TagsDiffer();
    var open, close := Open("Contents"), Close("Contents");
    match node
    case Other(text) => BlocksSkip(text, rest, open, close);
    case Flag(truncated) =>
      NoBracketNoTag(Word(truncated), open);
      TaggedFree(Open("IsTruncated"), Word(truncated), Close("IsTruncated"), open);
      BlocksSkip(Print(node), rest, open, close);
    case Object(item) =>
      InnerFree(item, close);
      BlocksCut(open, Inner(item), close, rest);
  }

  lemma {:induction false} AllBlocksAreFound(nodes: seq<Node>)
    requires forall i :: 0 <= i < |nodes| ==> GoodNode(nodes[i])
    ensures Blocks(Body(nodes), Open("Contents"), Close("Contents")) == InnersOf(nodes)
  {
    if nodes != [] {
      AllBlocksAreFound(nodes[1..]);
      NodeBlocks(nodes[0], Body(nodes[1..]));
    }
  }

  lemma {:induction false} EntriesRoundTrip(nodes: seq<Node>)
    requires forall i :: 0 <= i < |nodes| ==> GoodNode(nodes[i])
    ensures EntriesOf(InnersOf(nodes)) == Ok(Listed(nodes))
  {
    if nodes != [] {
      EntriesRoundTrip(nodes[1..]);
      if nodes[0].Object? {
        EntryRoundTrip(nodes[0].item);
        assert InnersOf(nodes)[1..] == InnersOf(nodes[1..]);
      } else {
        assert InnersOf(nodes) == InnersOf(nodes[1..]);
        assert Listed(nodes) == Listed(nodes[1..]);
      }
    }
  }

  // ---- The truncation flag -----------------------------------------------------------------

  lemma WordIsSolid(b: bool)
    ensures Trim(Word(b)) == Word(b) && '<' !in Word(b)
  {
    TrimKeepsSolid(Word(b));
  }

  lemma NodeFlag(node: Node, rest: string)
    requires GoodNode(node)
    ensures ExtractTag(Print(node) + rest, "IsTruncated")
            == if node.Flag? then Some(Word(node.truncated)) else ExtractTag(rest, "IsTruncated")
  {
    TagsInUse();
    TagsDiffer();
    var open, close := Open("IsTruncated"), Close("IsTruncated");
    match node
    case Other(text) => BetweenSkips(text, rest, open, close);
    case Flag(truncated) =>
      WordIsSolid(truncated);
      NoBracketNoTag(Word(truncated), close);
      Rebracket([], open, Word(truncated), close, rest);
      BetweenCut([], open, Word(truncated), close, rest);
      assert [] + (Print(node) + rest) == Print(node) + rest;
    case Object(item) =>
      InnerFree(item, open);
      TaggedFree(Open("Contents"), Inner(item), Close("Contents"), open);
      BetweenSkips(Print(node), rest, open, close);
  }

  lemma {:induction false} FlagRoundTrip(nodes: seq<Node>)
    requires forall i :: 0 <= i < |nodes| ==> GoodNode(nodes[i])
    ensures SaysTrue(ExtractTag(Body(nodes), "IsTruncated")) == Truncated(nodes)
  {
    if nodes != [] {
      FlagRoundTrip(nodes[1..]);
      NodeFlag(nodes[0], Body(nodes[1..]));
      if nodes[0].Flag? {
        WordIsSolid(nodes[0].truncated);
        assert |Word(true)| != |Word(false)|;
      }
    }
  }

  /**
   For every list of objects, wherever the truncation flag stands and whatever else the
   server writes in between, reading the printed response returns the same keys and
   sizes, and the cursor is the last key exactly when the listing was truncated.
   */
  lemma ListingRoundTrip(nodes: seq<Node>)
    requires forall i :: 0 <= i < |nodes| ==> GoodNode(nodes[i])
    ensures Parsed(Body(nodes)).Ok? && Parsed(Body(nodes)).value.entries == Listed(nodes)
    ensures var cursor := Parsed(Body(nodes)).value.cursor;
            && (cursor.Some? <==> Truncated(nodes) && Listed(nodes) != [])
            && (cursor.Some? ==> cursor.value == Listed(nodes)[|Listed(nodes)| - 1].key)
  {
    AllBlocksAreFound(nodes);
    EntriesRoundTrip(nodes);
    FlagRoundTrip(nodes);
  }
}
