/**
 The JSON text of a conversation, as far as it holds contents and images: its length is what the image budget measures,
 and contents and tool results read back out of it.
 */
module SerializedBody {
  import opened Conversation
  import opened ImageBudget
  import opened JsonText
  import opened Options
  import opened Text

  const TEXT_OPEN := "{\"type\":\"text\",\"text\":\""
  const IMAGE_OPEN := "{\"type\":\"image\",\"url\":\""
  const USER_OPEN := "{\"type\":\"user\",\"content\":"
  const RESULT_OPEN := "{\"type\":\"tool_result\",\"tool_call_id\":\""
  const RESULT_CONTENT := "\",\"content\":\""
  const IMAGES_KEY := ",\"images\":"

  function PrintedPart(p: ContentPart): string {
    match p
    case Text(text) => TEXT_OPEN + Escape(text) + "\"}"
    case Image(url) => IMAGE_OPEN + Escape(url) + "\"}"
  }

  /** The elements behind the first, each behind a comma. */
  function MoreParts(parts: seq<ContentPart>): string {
    if parts == [] then "" else "," + PrintedPart(parts[0]) + MoreParts(parts[1..])
  }

  function PrintedParts(parts: seq<ContentPart>): string {
    if parts == [] then "[]" else "[" + PrintedPart(parts[0]) + MoreParts(parts[1..]) + "]"
  }

  /** What is left out when it is empty. */
  function PrintedImages(images: seq<ContentPart>): string {
    if images == [] then "" else IMAGES_KEY + PrintedParts(images)
  }

  /**
   One item. `fields` gives the text of what the image budget never looks at: the further fields of a user item, and the
   other kinds of items altogether.
   */
  function PrintedItem(fields: Item -> string, x: Item): string {
    match x
    case User(content, _) => USER_OPEN + PrintedParts(content) + fields(x.(content := [])) + "}"
    case ToolResult(id, text, images) =>
      RESULT_OPEN + Escape(id) + RESULT_CONTENT + Escape(text) + "\"" + PrintedImages(images) + "}"
    case _ => fields(x)
  }

  function MoreItems(fields: Item -> string, s: seq<Item>): string {
    if s == [] then "" else "," + PrintedItem(fields, s[0]) + MoreItems(fields, s[1..])
  }

  function Printed(fields: Item -> string, s: seq<Item>): string {
    if s == [] then "[]" else "[" + PrintedItem(fields, s[0]) + MoreItems(fields, s[1..]) + "]"
  }

  // ---------------------------------------------------------------- its length

  function FrameBytes(fields: Item -> string, x: Item): nat {
    match x
    case User(_, _) => |USER_OPEN| + Utf8Bytes(fields(x)) + 1
    case ToolResult(id, _, _) => |RESULT_OPEN| + EscapedBytes(id) + |RESULT_CONTENT| + 2
    case _ => Utf8Bytes(fields(x))
  }

  lemma TagsAreAscii()
    ensures Utf8Bytes(TEXT_OPEN) == |TEXT_OPEN| && Utf8Bytes(IMAGE_OPEN) == |IMAGE_OPEN|
    ensures Utf8Bytes(USER_OPEN) == |USER_OPEN| && Utf8Bytes(RESULT_OPEN) == |RESULT_OPEN|
    ensures Utf8Bytes(RESULT_CONTENT) == |RESULT_CONTENT| && Utf8Bytes(IMAGES_KEY) == |IMAGES_KEY|
  {
    hide Utf8Bytes;
    PartTagsAreAscii();
    ItemTagsAreAscii();
    AsciiBytes(TEXT_OPEN);
    AsciiBytes(IMAGE_OPEN);
    AsciiBytes(USER_OPEN);
    AsciiBytes(RESULT_OPEN);
    AsciiBytes(RESULT_CONTENT);
    AsciiBytes(IMAGES_KEY);
  }

  lemma PartTagsAreAscii()
    ensures IsAscii(TEXT_OPEN) && IsAscii(IMAGE_OPEN) && IsAscii(IMAGES_KEY)
  {
  }

  lemma ItemTagsAreAscii()
    ensures IsAscii(USER_OPEN) && IsAscii(RESULT_OPEN) && IsAscii(RESULT_CONTENT)
  {
  }

  lemma MarksAreAscii()
    ensures Utf8Bytes("[]") == Utf8Bytes("\"}") == 2 && Utf8Bytes("") == 0
    ensures Utf8Bytes("[") == Utf8Bytes("]") == Utf8Bytes(",") == Utf8Bytes("}") == Utf8Bytes("\"") == 1
  {
    hide Utf8Bytes;
    AsciiBytes("[]");
    AsciiBytes("\"}");
    AsciiBytes("");
    AsciiBytes("[");
    AsciiBytes("]");
    AsciiBytes(",");
    AsciiBytes("}");
    AsciiBytes("\"");
  }

  lemma PrintedPartBytes(p: ContentPart)
    ensures Utf8Bytes(PrintedPart(p)) == PartBytes(EscapedBytes, p)
  {
    hide Utf8Bytes, EscapedBytes, Escape;
    var (tag, text) := match p case Text(text) => (TEXT_OPEN, text) case Image(url) => (IMAGE_OPEN, url);
    TagsAreAscii();
    MarksAreAscii();
    EscapedTextBytes(text);
    Utf8Concat(tag + Escape(text), "\"}");
    Utf8Concat(tag, Escape(text));
  }

  lemma {:induction false} MorePartsBytes(parts: seq<ContentPart>)
    ensures Utf8Bytes(MoreParts(parts)) == |parts| + PartsBytes(EscapedBytes, parts)
  {
    hide Utf8Bytes, EscapedBytes, PrintedPart, PartBytes;
    MarksAreAscii();
    if parts != [] {
      MorePartsBytes(parts[1..]);
      PrintedPartBytes(parts[0]);
      Utf8Concat("," + PrintedPart(parts[0]), MoreParts(parts[1..]));
      Utf8Concat(",", PrintedPart(parts[0]));
    }
  }

  lemma PrintedPartsBytes(parts: seq<ContentPart>)
    ensures Utf8Bytes(PrintedParts(parts)) == ArrayFrame(|parts|) + PartsBytes(EscapedBytes, parts)
  {
    hide Utf8Bytes, EscapedBytes, PrintedPart, PartBytes, MoreParts;
    MarksAreAscii();
    if parts != [] {
      MorePartsBytes(parts[1..]);
      PrintedPartBytes(parts[0]);
      Utf8Concat("[" + PrintedPart(parts[0]) + MoreParts(parts[1..]), "]");
      Utf8Concat("[" + PrintedPart(parts[0]), MoreParts(parts[1..]));
      Utf8Concat("[", PrintedPart(parts[0]));
    }
  }

  lemma PrintedUserBytes(fields: Item -> string, x: Item)
    requires x.User?
    ensures Utf8Bytes(PrintedItem(fields, x)) == ItemBytes(y => FrameBytes(fields, y), EscapedBytes, x)
  {
    hide Utf8Bytes, EscapedBytes, PrintedParts, PartsBytes;
    TagsAreAscii();
    MarksAreAscii();
    PrintedPartsBytes(x.content);
    var more := fields(x.(content := []));
    Utf8Concat(USER_OPEN + PrintedParts(x.content) + more, "}");
    Utf8Concat(USER_OPEN + PrintedParts(x.content), more);
    Utf8Concat(USER_OPEN, PrintedParts(x.content));
  }

  lemma PrintedImagesBytes(images: seq<ContentPart>)
    ensures Utf8Bytes(PrintedImages(images)) ==
            if images == [] then 0 else IMAGES_KEY_BYTES + ArrayFrame(|images|) + PartsBytes(EscapedBytes, images)
  {
    hide Utf8Bytes, EscapedBytes, PrintedParts, PartsBytes;
    TagsAreAscii();
    MarksAreAscii();
    if images != [] {
      PrintedPartsBytes(images);
      Utf8Concat(IMAGES_KEY, PrintedParts(images));
    }
  }

  lemma PrintedResultBytes(fields: Item -> string, x: Item)
    requires x.ToolResult?
    ensures Utf8Bytes(PrintedItem(fields, x)) == ItemBytes(y => FrameBytes(fields, y), EscapedBytes, x)
  {
    hide Utf8Bytes, EscapedBytes, PrintedImages, PartsBytes, Escape;
    TagsAreAscii();
    MarksAreAscii();
    PrintedImagesBytes(x.images);
    EscapedTextBytes(x.callId);
    EscapedTextBytes(x.text);
    var (id, text) := (Escape(x.callId), Escape(x.text));
    Utf8Concat(RESULT_OPEN + id + RESULT_CONTENT + text + "\"" + PrintedImages(x.images), "}");
    Utf8Concat(RESULT_OPEN + id + RESULT_CONTENT + text + "\"", PrintedImages(x.images));
    Utf8Concat(RESULT_OPEN + id + RESULT_CONTENT + text, "\"");
    Utf8Concat(RESULT_OPEN + id + RESULT_CONTENT, text);
    Utf8Concat(RESULT_OPEN + id, RESULT_CONTENT);
    Utf8Concat(RESULT_OPEN, id);
  }

  lemma PrintedItemBytes(fields: Item -> string, x: Item)
    ensures Utf8Bytes(PrintedItem(fields, x)) == ItemBytes(y => FrameBytes(fields, y), EscapedBytes, x)
  {
    hide Utf8Bytes, EscapedBytes, PrintedParts, PrintedImages, PartsBytes;
    if x.User? {
      PrintedUserBytes(fields, x);
    } else if x.ToolResult? {
      PrintedResultBytes(fields, x);
    }
  }

  lemma {:induction false} MoreItemsBytes(fields: Item -> string, s: seq<Item>)
    ensures Utf8Bytes(MoreItems(fields, s)) == |s| + ItemsBytes(y => FrameBytes(fields, y), EscapedBytes, s)
  {
    hide Utf8Bytes, EscapedBytes, PrintedItem, ItemBytes, FrameBytes;
    MarksAreAscii();
    if s != [] {
      MoreItemsBytes(fields, s[1..]);
      PrintedItemBytes(fields, s[0]);
      Utf8Concat("," + PrintedItem(fields, s[0]), MoreItems(fields, s[1..]));
      Utf8Concat(",", PrintedItem(fields, s[0]));
    }
  }

  /** The serialized length is the length of the printed conversation, whatever else the items hold. */
  lemma SerializedIsPrinted(fields: Item -> string, s: seq<Item>)
    ensures SerializedBytes(y => FrameBytes(fields, y), s) == Utf8Bytes(Printed(fields, s))
  {
    hide Utf8Bytes, EscapedBytes, PrintedItem, ItemBytes, FrameBytes, MoreItems;
    MarksAreAscii();
    if s != [] {
      MoreItemsBytes(fields, s[1..]);
      PrintedItemBytes(fields, s[0]);
      Utf8Concat("[" + PrintedItem(fields, s[0]) + MoreItems(fields, s[1..]), "]");
      Utf8Concat("[" + PrintedItem(fields, s[0]), MoreItems(fields, s[1..]));
      Utf8Concat("[", PrintedItem(fields, s[0]));
    }
  }

  // ---------------------------------------------------------------- it reads back

  /** The rest of a text behind a tag, if the tag is there. */
  function Behind(t: string, tag: string): (r: Option<string>)
    ensures r.Some? ==> |r.value| == |t| - |tag|
  {
    if tag <= t then Some(t[|tag|..]) else None
  }

  function ReadPart(t: string): (r: Option<(ContentPart, string)>)
    ensures r.Some? ==> |r.value.1| < |t|
  {
    LiteralIsFront(t);
    match (Behind(t, TEXT_OPEN), Behind(t, IMAGE_OPEN))
    case (Some(inside), _) =>
      (match ReadLiteral(inside)
       case Some((text, more)) => if "}" <= more then Some((Text(text), more[1..])) else None
       case None => None)
    case (None, Some(inside)) =>
      (match ReadLiteral(inside)
       case Some((url, more)) => if "}" <= more then Some((Image(url), more[1..])) else None
       case None => None)
    case (None, None) => None
  }

  lemma LiteralIsFront(t: string)
    ensures Behind(t, TEXT_OPEN).Some? ==> LiteralShortens(Behind(t, TEXT_OPEN).value)
    ensures Behind(t, IMAGE_OPEN).Some? ==> LiteralShortens(Behind(t, IMAGE_OPEN).value)
  {
    if Behind(t, TEXT_OPEN).Some? {
      ReadingShortens(Behind(t, TEXT_OPEN).value);
    }
    if Behind(t, IMAGE_OPEN).Some? {
      ReadingShortens(Behind(t, IMAGE_OPEN).value);
    }
  }

  predicate LiteralShortens(t: string) {
    ReadLiteral(t).Some? ==> |ReadLiteral(t).value.1| < |t|
  }

  lemma {:induction false} ReadingShortens(t: string)
    ensures LiteralShortens(t)
    decreases |t|
  {
    hide ReadChar;
    if t != "" && t[0] != '\"' && ReadChar(t).Some? {
      ReadingShortens(t[ReadChar(t).value.1..]);
    }
  }

  /** The elements up to the closing bracket, each behind a comma. */
  function ReadMore(t: string): Option<(seq<ContentPart>, string)>
    decreases |t|
  {
    if "]" <= t then Some(([], t[1..]))
    else if "," <= t then
      match ReadPart(t[1..])
      case None => None
      case Some((p, rest)) =>
        match ReadMore(rest)
        case None => None
        case Some((parts, behind)) => Some(([p] + parts, behind))
    else None
  }

  function ReadParts(t: string): Option<(seq<ContentPart>, string)> {
    if "[]" <= t then Some(([], t[2..]))
    else if "[" <= t then
      match ReadPart(t[1..])
      case None => None
      case Some((p, rest)) =>
        match ReadMore(rest)
        case None => None
        case Some((parts, behind)) => Some(([p] + parts, behind))
    else None
  }

  /** The end of a tool result, behind its text. */
  function ReadImages(t: string): Option<(seq<ContentPart>, string)> {
    match Behind(t, IMAGES_KEY)
    case None => if "}" <= t then Some(([], t[1..])) else None
    case Some(list) =>
      match ReadParts(list)
      case None => None
      case Some((images, end)) => if "}" <= end then Some((images, end[1..])) else None
  }

  function ReadContent(t: string): Option<(string, seq<ContentPart>, string)> {
    match Behind(t, RESULT_CONTENT)
    case None => None
    case Some(content) =>
      match ReadLiteral(content)
      case None => None
      case Some((text, behind)) =>
        match ReadImages(behind)
        case None => None
        case Some((images, rest)) => Some((text, images, rest))
  }

  function ReadResult(t: string): Option<(Item, string)> {
    match Behind(t, RESULT_OPEN)
    case None => None
    case Some(inside) =>
      match ReadLiteral(inside)
      case None => None
      case Some((id, more)) =>
        match ReadContent("\"" + more)
        case None => None
        case Some((text, images, rest)) => Some((ToolResult(id, text, images), rest))
  }

  lemma TagIsPassed(tag: string, more: string)
    ensures tag <= tag + more && Behind(tag + more, tag) == Some(more)
  {
  }

  lemma PartTagsDiffer(more: string)
    ensures Behind(IMAGE_OPEN + more, TEXT_OPEN) == None
  {
    assert (IMAGE_OPEN + more)[9] == 'i' && TEXT_OPEN[9] == 't';
  }

  lemma PartReadsBack(p: ContentPart, rest: string)
    ensures ReadPart(PrintedPart(p) + rest) == Some((p, rest))
  {
    hide Escape, ReadLiteral, Behind;
    var text := match p case Text(text) => text case Image(url) => url;
    var inside := Escape(text) + "\"" + ("}" + rest);
    WrittenReadsBack(text, "}" + rest);
    assert ("}" + rest)[1..] == rest;
    if p.Text? {
      assert PrintedPart(p) + rest == TEXT_OPEN + inside;
      TagIsPassed(TEXT_OPEN, inside);
    } else {
      assert PrintedPart(p) + rest == IMAGE_OPEN + inside;
      TagIsPassed(IMAGE_OPEN, inside);
      PartTagsDiffer(inside);
    }
  }

  lemma OneMorePart(t: string, p: ContentPart, more: string, parts: seq<ContentPart>, rest: string)
    requires "," <= t && ReadPart(t[1..]) == Some((p, more)) && ReadMore(more) == Some((parts, rest))
    ensures ReadMore(t) == Some(([p] + parts, rest))
  {
    hide ReadPart;
    assert t[0] == ',';
  }

  lemma {:induction false} MoreReadsBack(parts: seq<ContentPart>, rest: string)
    ensures ReadMore(MoreParts(parts) + "]" + rest) == Some((parts, rest))
  {
    hide PrintedPart, ReadPart, ReadMore;
    if parts == [] {
      assert "" + "]" + rest == "]" + rest;
      NoMoreParts(rest);
    } else {
      var more := MoreParts(parts[1..]) + "]" + rest;
      var t := MoreParts(parts) + "]" + rest;
      assert t == "," + (PrintedPart(parts[0]) + more);
      assert t[1..] == PrintedPart(parts[0]) + more;
      PartReadsBack(parts[0], more);
      MoreReadsBack(parts[1..], rest);
      OneMorePart(t, parts[0], more, parts[1..], rest);
      assert [parts[0]] + parts[1..] == parts;
    }
  }

  lemma NoMoreParts(rest: string)
    ensures ReadMore("]" + rest) == Some(([], rest))
  {
    assert ("]" + rest)[1..] == rest;
  }

  lemma PartsOpen(p: ContentPart, more: string)
    ensures var t := "[" + (PrintedPart(p) + more); "[" <= t && !("[]" <= t) && t[1..] == PrintedPart(p) + more
  {
    hide Escape;
    var t := "[" + (PrintedPart(p) + more);
    assert t[1] == PrintedPart(p)[0] == '{';
  }

  /** The parts of a content read back out of its text. */
  lemma PartsReadBack(parts: seq<ContentPart>, rest: string)
    ensures ReadParts(PrintedParts(parts) + rest) == Some((parts, rest))
  {
    hide PrintedPart, ReadPart, MoreParts, ReadMore;
    if parts == [] {
      assert ("[]" + rest)[2..] == rest;
    } else {
      var more := MoreParts(parts[1..]) + "]" + rest;
      assert PrintedParts(parts) + rest == "[" + (PrintedPart(parts[0]) + more);
      PartsOpen(parts[0], more);
      PartReadsBack(parts[0], more);
      MoreReadsBack(parts[1..], rest);
      assert [parts[0]] + parts[1..] == parts;
    }
  }

  lemma NoImagesKey(rest: string)
    ensures Behind("}" + rest, IMAGES_KEY) == None
  {
    assert ("}" + rest)[0] == '}' && IMAGES_KEY[0] == ',';
  }

  lemma NoImagesReadBack(rest: string)
    ensures ReadImages("}" + rest) == Some(([], rest))
  {
    NoImagesKey(rest);
    assert ("}" + rest)[1..] == rest;
  }

  lemma ImagesReadBack(images: seq<ContentPart>, rest: string)
    ensures ReadImages(PrintedImages(images) + ("}" + rest)) == Some((images, rest))
  {
    hide Behind, PrintedParts, ReadParts;
    var end := "}" + rest;
    if images == [] {
      assert "" + end == end;
      NoImagesReadBack(rest);
    } else {
      var list := PrintedParts(images) + end;
      assert PrintedImages(images) + end == IMAGES_KEY + list;
      TagIsPassed(IMAGES_KEY, list);
      PartsReadBack(images, end);
      assert "}" <= end && end[1..] == rest;
    }
  }

  lemma ContentReadsBack(text: string, images: seq<ContentPart>, rest: string)
    ensures ReadContent(RESULT_CONTENT + (Escape(text) + "\"" + (PrintedImages(images) + ("}" + rest))))
            == Some((text, images, rest))
  {
    hide Escape, ReadLiteral, Behind, PrintedImages, ReadImages;
    var behind := PrintedImages(images) + ("}" + rest);
    TagIsPassed(RESULT_CONTENT, Escape(text) + "\"" + behind);
    WrittenReadsBack(text, behind);
    ImagesReadBack(images, rest);
  }

  /** A tool result reads back as a whole; the images are left out exactly if there are none. */
  lemma ResultReadsBack(fields: Item -> string, x: Item, rest: string)
    requires x.ToolResult?
    ensures ReadResult(PrintedItem(fields, x) + rest) == Some((x, rest))
  {
    hide Escape, ReadLiteral, Behind, PrintedImages, ReadContent;
    var content := Escape(x.text) + "\"" + (PrintedImages(x.images) + ("}" + rest));
    var afterId := RESULT_CONTENT[1..] + content;
    assert "\"" + afterId == RESULT_CONTENT + content;
    var inside := Escape(x.callId) + "\"" + afterId;
    assert PrintedItem(fields, x) + rest == RESULT_OPEN + inside;
    TagIsPassed(RESULT_OPEN, inside);
    WrittenReadsBack(x.callId, afterId);
    ContentReadsBack(x.text, x.images, rest);
  }
}
