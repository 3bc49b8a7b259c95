/**
 Byte budgeting for inline images: measuring the serialized body without
 scanning base64 payloads, and evicting the oldest images until a running
 estimate of the body reaches the reclaim target.
 */
module ImageBudget {
  import opened Arithmetic
  import opened Conversation
  import opened JsonText
  import opened Text

  // ---------------------------------------------------------------- JSON lengths

  const IMAGE_PART_FRAME_BYTES: nat := |"{\"type\":\"image\",\"url\":\"\"}"|
  const TEXT_PART_FRAME_BYTES: nat := |"{\"type\":\"text\",\"text\":\"\"}"|
  const IMAGES_KEY_BYTES: nat := |",\"images\":"|

  /** What a nonempty list of images costs beyond its elements and commas: the key and the brackets. */
  const IMAGES_FIELD_BYTES: nat := IMAGES_KEY_BYTES + 2

  /** Bytes of an image URL, given a way to measure it. */
  type UrlMeasure = string -> nat

  function PartBytes(u: UrlMeasure, p: ContentPart): nat {
    match p
    case Text(text) => TEXT_PART_FRAME_BYTES + EscapedBytes(text)
    case Image(url) => IMAGE_PART_FRAME_BYTES + u(url)
  }

  function PartsBytes(u: UrlMeasure, parts: seq<ContentPart>): nat {
    if parts == [] then 0 else PartBytes(u, parts[0]) + PartsBytes(u, parts[1..])
  }

  /** Brackets and commas around n array elements. */
  function ArrayFrame(n: nat): nat {
    if n == 0 then 2 else 1 + n
  }

  /**
   One item. `frame` gives the bytes of everything this module never changes;
   the images field of a tool result is omitted when it is empty.
   */
  function ItemBytes(frame: Item -> nat, u: UrlMeasure, x: Item): nat {
    match x
    case User(content, _) => frame(x.(content := [])) + ArrayFrame(|content|) + PartsBytes(u, content)
    case ToolResult(_, text, images) =>
      frame(x.(text := "", images := [])) + EscapedBytes(text) +
      if images == [] then 0 else IMAGES_KEY_BYTES + ArrayFrame(|images|) + PartsBytes(u, images)
    case _ => frame(x)
  }

  function ItemsBytes(frame: Item -> nat, u: UrlMeasure, s: seq<Item>): nat {
    if s == [] then 0 else ItemBytes(frame, u, s[0]) + ItemsBytes(frame, u, s[1..])
  }

  function BodyBytes(frame: Item -> nat, u: UrlMeasure, s: seq<Item>): nat {
    ArrayFrame(|s|) + ItemsBytes(frame, u, s)
  }

  /** The length of the serialized conversation. */
  function SerializedBytes(frame: Item -> nat, s: seq<Item>): nat {
    BodyBytes(frame, EscapedBytes, s)
  }

  // ---------------------------------------------------------------- measuring without scanning payloads

  predicate IsBase64DataHeader(header: string) {
    "data:" <= header && EndsWith(header, ";base64")
  }

  /** The payload of a base64 data URI is counted, not scanned for escapes. */
  function EncodedUrlBytes(url: string): nat {
    match Find(url, ",")
    case None => EscapedBytes(url)
    case Some(i) =>
      if IsBase64DataHeader(url[..i]) then EscapedBytes(url[..i]) + 1 + Utf8Bytes(url[i + 1..])
      else EscapedBytes(url)
  }

  function BlankedPart(p: ContentPart): ContentPart {
    if p.Image? then Image("") else p
  }

  function BlankedParts(parts: seq<ContentPart>): seq<ContentPart> {
    if parts == [] then [] else [BlankedPart(parts[0])] + BlankedParts(parts[1..])
  }

  function BlankedItem(x: Item): Item {
    if x.User? then x.(content := BlankedParts(x.content))
    else if x.ToolResult? then x.(images := BlankedParts(x.images))
    else x
  }

  function Blanked(s: seq<Item>): seq<Item> {
    if s == [] then [] else [BlankedItem(s[0])] + Blanked(s[1..])
  }

  function UrlBytesOfParts(parts: seq<ContentPart>): nat {
    if parts == [] then 0
    else (if parts[0].Image? then EncodedUrlBytes(parts[0].url) else 0) + UrlBytesOfParts(parts[1..])
  }

  function PartsOf(x: Item): seq<ContentPart> {
    if x.User? then x.content else if x.ToolResult? then x.images else []
  }

  function UrlBytes(s: seq<Item>): nat {
    if s == [] then 0 else UrlBytesOfParts(PartsOf(s[0])) + UrlBytes(s[1..])
  }

  /** The measured body: blank every URL, serialize, add the URLs' own bytes back. */
  function ConversationBodyBytes(frame: Item -> nat, s: seq<Item>): nat {
    SerializedBytes(frame, Blanked(s)) + UrlBytes(s)
  }

  lemma {:induction false} BlankingParts(parts: seq<ContentPart>)
    ensures |BlankedParts(parts)| == |parts|
    ensures PartsBytes(EscapedBytes, BlankedParts(parts)) + UrlBytesOfParts(parts) == PartsBytes(EncodedUrlBytes, parts)
  {
    if parts != [] {
      BlankingParts(parts[1..]);
    }
  }

  /** Blanking and adding back is measuring each URL in place. */
  lemma {:induction false} MeasuredInPlace(frame: Item -> nat, s: seq<Item>)
    ensures |Blanked(s)| == |s|
    ensures ItemsBytes(frame, EscapedBytes, Blanked(s)) + UrlBytes(s) == ItemsBytes(frame, EncodedUrlBytes, s)
    ensures ConversationBodyBytes(frame, s) == BodyBytes(frame, EncodedUrlBytes, s)
  {
    if s != [] {
      MeasuredInPlace(frame, s[1..]);
      BlankingParts(PartsOf(s[0]));
    }
  }

  /** A character whose JSON form is longer than its UTF-8 form. */
  predicate NeedsEscape(c: char) {
    c as int == 0x22 || c as int == 0x5C || c as int < 0x20
  }

  /** A base64 data URI whose payload holds a character that JSON would escape. */
  predicate HasDirtyPayload(url: string) {
    match Find(url, ",")
    case None => false
    case Some(i) => IsBase64DataHeader(url[..i]) && exists k | i < k < |url| :: NeedsEscape(url[k])
  }

  lemma {:induction false} EscapedConcat(a: string, b: string)
    ensures EscapedBytes(a + b) == EscapedBytes(a) + EscapedBytes(b)
  {
    if a == [] {
      assert a + b == b;
    } else {
      assert (a + b)[1..] == a[1..] + b;
      EscapedConcat(a[1..], b);
    }
  }

  lemma {:induction false} EscapesOnlyLengthen(s: string)
    ensures Utf8Bytes(s) <= EscapedBytes(s)
    ensures Utf8Bytes(s) == EscapedBytes(s) <==> forall k | 0 <= k < |s| :: !NeedsEscape(s[k])
  {
    if s != [] {
      EscapesOnlyLengthen(s[1..]);
      if forall k | 0 <= k < |s[1..]| :: !NeedsEscape(s[1..][k]) {
        forall k | 1 <= k < |s| ensures !NeedsEscape(s[k]) { assert s[k] == s[1..][k - 1]; }
      } else {
        var k :| 0 <= k < |s[1..]| && NeedsEscape(s[1..][k]);
        assert s[k + 1] == s[1..][k];
      }
    }
  }

  lemma EncodedUrlNeverOvercounts(url: string)
    ensures EncodedUrlBytes(url) <= EscapedBytes(url)
    ensures EncodedUrlBytes(url) == EscapedBytes(url) <==> !HasDirtyPayload(url)
  {
    hide IsBase64DataHeader, EscapedBytes, Utf8Bytes, NeedsEscape;
    match Find(url, ",")
    case None =>
    case Some(i) =>
      FoundIsLeftmost(url, ",");
      assert url[i..i + 1] == ",";
      var tail := url[i + 1..];
      EscapedAroundComma(url, i);
      EscapesOnlyLengthen(tail);
      if k :| i < k < |url| && NeedsEscape(url[k]) {
        assert tail[k - i - 1] == url[k];
      }
  }

  lemma EscapedAroundComma(url: string, i: nat)
    requires i < |url| && url[i..i + 1] == ","
    ensures EscapedBytes(url) == EscapedBytes(url[..i]) + 1 + EscapedBytes(url[i + 1..])
    ensures url[i] == ','
  {
    hide EscapedBytes, EscapedCharLength;
    var comma, tail := url[i..i + 1], url[i + 1..];
    assert url[i] == comma[0];
    assert url == url[..i] + (comma + tail);
    EscapedConcat(url[..i], comma + tail);
    EscapedConcat(comma, tail);
    CommaIsOneByte();
  }

  lemma CommaIsOneByte()
    ensures EscapedBytes(",") == 1
  {
  }

  ghost predicate CleanParts(parts: seq<ContentPart>) {
    forall p | p in parts && p.Image? :: !HasDirtyPayload(p.url)
  }

  lemma {:induction false} PartsMeasuredExactly(parts: seq<ContentPart>)
    ensures PartsBytes(EncodedUrlBytes, parts) <= PartsBytes(EscapedBytes, parts)
    ensures PartsBytes(EncodedUrlBytes, parts) == PartsBytes(EscapedBytes, parts) <==> CleanParts(parts)
  {
    hide EncodedUrlBytes, EscapedBytes, HasDirtyPayload;
    if parts != [] {
      PartsMeasuredExactly(parts[1..]);
      if parts[0].Image? {
        EncodedUrlNeverOvercounts(parts[0].url);
      }
      assert parts == [parts[0]] + parts[1..];
    }
  }

  lemma {:induction false} ItemsMeasuredExactly(frame: Item -> nat, s: seq<Item>)
    ensures ItemsBytes(frame, EncodedUrlBytes, s) <= ItemsBytes(frame, EscapedBytes, s)
    ensures ItemsBytes(frame, EncodedUrlBytes, s) == ItemsBytes(frame, EscapedBytes, s)
            <==> forall i | 0 <= i < |s| :: CleanParts(PartsOf(s[i]))
  {
    if s != [] {
      ItemsMeasuredExactly(frame, s[1..]);
      PartsMeasuredExactly(PartsOf(s[0]));
      if forall i | 0 <= i < |s[1..]| :: CleanParts(PartsOf(s[1..][i])) {
        forall i | 1 <= i < |s| ensures CleanParts(PartsOf(s[i])) { assert s[i] == s[1..][i - 1]; }
      } else {
        var i :| 0 <= i < |s[1..]| && !CleanParts(PartsOf(s[1..][i]));
        assert s[i + 1] == s[1..][i];
      }
    }
  }

  /** The measured body is the serialized length exactly when no base64 payload needs escaping; else it is below. */
  lemma BodyMeasuredExactly(frame: Item -> nat, s: seq<Item>)
    ensures ConversationBodyBytes(frame, s) <= SerializedBytes(frame, s)
    ensures ConversationBodyBytes(frame, s) == SerializedBytes(frame, s)
            <==> forall i | 0 <= i < |s| :: CleanParts(PartsOf(s[i]))
  {
    MeasuredInPlace(frame, s);
    ItemsMeasuredExactly(frame, s);
  }

  // ---------------------------------------------------------------- images and the oldest of them

  function PartImages(parts: seq<ContentPart>): nat {
    if parts == [] then 0 else (if parts[0].Image? then 1 else 0) + PartImages(parts[1..])
  }

  function InlineImageCount(s: seq<Item>): nat {
    if s == [] then 0 else PartImages(PartsOf(s[0])) + InlineImageCount(s[1..])
  }

  /** Where an image was found: a fixed slot of a user item, or somewhere in a tool result. */
  datatype ImageLocation = UserSlot(item: nat, part: nat) | InToolResult(item: nat)

  datatype FoundImage = FoundImage(location: ImageLocation, bytes: nat)

  function FindInUser(parts: seq<ContentPart>, item: nat, part: nat): seq<FoundImage> {
    if parts == [] then []
    else if parts[0].Image? then
      [FoundImage(UserSlot(item, part), PartBytes(EncodedUrlBytes, parts[0]))] + FindInUser(parts[1..], item, part + 1)
    else FindInUser(parts[1..], item, part + 1)
  }

  function FindInToolResult(parts: seq<ContentPart>, item: nat): seq<FoundImage> {
    if parts == [] then []
    else if parts[0].Image? then
      [FoundImage(InToolResult(item), PartBytes(EncodedUrlBytes, parts[0]))] + FindInToolResult(parts[1..], item)
    else FindInToolResult(parts[1..], item)
  }

  function FindInItem(x: Item, item: nat): seq<FoundImage> {
    if x.User? then FindInUser(x.content, item, 0)
    else if x.ToolResult? then FindInToolResult(x.images, item)
    else []
  }

  /** All images of the history, oldest first. */
  function FindImages(s: seq<Item>, item: nat): seq<FoundImage> {
    if s == [] then [] else FindInItem(s[0], item) + FindImages(s[1..], item + 1)
  }

  function FirstImage(parts: seq<ContentPart>): (i: nat)
    requires PartImages(parts) > 0
    ensures i < |parts| && parts[i].Image?
    ensures forall k | 0 <= k < i :: !parts[k].Image?
  {
    if parts[0].Image? then 0 else 1 + FirstImage(parts[1..])
  }

  /** The texts that stand in for evicted images. */
  datatype Wording = Wording(placeholder: string, note: string)

  function WithNote(text: string, w: Wording): string {
    if Contains(text, w.note) then text else text + "\n\n" + w.note
  }

  /** Evicts the oldest image of one item. */
  function EvictFromItem(x: Item, w: Wording): Item
    requires PartImages(PartsOf(x)) > 0
  {
    var i := FirstImage(PartsOf(x));
    if x.User? then x.(content := x.content[i := Text(w.placeholder)])
    else x.(images := x.images[..i] + x.images[i + 1..], text := WithNote(x.text, w))
  }

  function EvictOldest(s: seq<Item>, w: Wording): seq<Item>
    requires InlineImageCount(s) > 0
  {
    if PartImages(PartsOf(s[0])) > 0 then [EvictFromItem(s[0], w)] + s[1..]
    else [s[0]] + EvictOldest(s[1..], w)
  }

  lemma {:induction false} EvictPartCounts(parts: seq<ContentPart>, p: ContentPart)
    requires PartImages(parts) > 0 && p.Text?
    ensures var i := FirstImage(parts);
            && PartImages(parts[i := p]) == PartImages(parts) - 1
            && PartImages(parts[..i] + parts[i + 1..]) == PartImages(parts) - 1
  {
    var i := FirstImage(parts);
    if i == 0 {
      assert parts[0 := p][1..] == parts[1..];
      assert parts[..0] + parts[1..] == parts[1..];
    } else {
      EvictPartCounts(parts[1..], p);
      assert parts[i := p][1..] == parts[1..][i - 1 := p];
      assert (parts[..i] + parts[i + 1..])[1..] == parts[1..][..i - 1] + parts[1..][i..];
    }
  }

  /** Each eviction takes one image out. */
  lemma {:induction false} EvictOldestCounts(s: seq<Item>, w: Wording)
    requires InlineImageCount(s) > 0
    ensures InlineImageCount(EvictOldest(s, w)) == InlineImageCount(s) - 1
    ensures |EvictOldest(s, w)| == |s|
  {
    if PartImages(PartsOf(s[0])) > 0 {
      EvictPartCounts(PartsOf(s[0]), Text(w.placeholder));
    } else {
      EvictOldestCounts(s[1..], w);
    }
  }

  /** The history after the n oldest images are gone. */
  function EvictN(s: seq<Item>, w: Wording, n: nat): (r: seq<Item>)
    requires n <= InlineImageCount(s)
    ensures |r| == |s| && InlineImageCount(r) == InlineImageCount(s) - n
  {
    if n == 0 then s
    else
      EvictOldestCounts(EvictN(s, w, n - 1), w);
      EvictOldest(EvictN(s, w, n - 1), w)
  }

  // ---------------------------------------------------------------- the list found up front stays right

  lemma {:induction false} FindInUserAfter(parts: seq<ContentPart>, p: ContentPart, item: nat, part: nat)
    requires PartImages(parts) > 0 && p.Text?
    ensures var i := FirstImage(parts);
            FindInUser(parts, item, part) ==
            [FoundImage(UserSlot(item, part + i), PartBytes(EncodedUrlBytes, parts[i]))] +
              FindInUser(parts[i := p], item, part)
  {
    hide PartBytes, EncodedUrlBytes;
    var i := FirstImage(parts);
    if i == 0 {
      assert parts[0 := p][1..] == parts[1..];
    } else {
      FindInUserAfter(parts[1..], p, item, part + 1);
      assert parts[i := p][1..] == parts[1..][i - 1 := p];
    }
  }

  lemma {:induction false} FindInToolResultAfter(parts: seq<ContentPart>, item: nat)
    requires PartImages(parts) > 0
    ensures var i := FirstImage(parts);
            FindInToolResult(parts, item) ==
            [FoundImage(InToolResult(item), PartBytes(EncodedUrlBytes, parts[i]))] +
            FindInToolResult(parts[..i] + parts[i + 1..], item)
  {
    hide PartBytes, EncodedUrlBytes;
    var i := FirstImage(parts);
    if i == 0 {
      assert parts[..0] + parts[1..] == parts[1..];
    } else {
      FindInToolResultAfter(parts[1..], item);
      var left := parts[..i] + parts[i + 1..];
      assert left[0] == parts[0] && left[1..] == parts[1..][..i - 1] + parts[1..][i..];
    }
  }

  lemma {:induction false} NoImagesToFind(x: Item, item: nat, part: nat)
    requires PartImages(PartsOf(x)) == 0
    ensures FindInUser(PartsOf(x), item, part) == [] && FindInToolResult(PartsOf(x), item) == []
    decreases |PartsOf(x)|
  {
    if PartsOf(x) != [] {
      NoImagesToFind(User(PartsOf(x)[1..], Human), item, part + 1);
    }
  }

  /** The index of the item that holds the oldest image. */
  function OldestItem(s: seq<Item>): (k: nat)
    requires InlineImageCount(s) > 0
    ensures k < |s| && PartImages(PartsOf(s[k])) > 0
  {
    if PartImages(PartsOf(s[0])) > 0 then 0 else 1 + OldestItem(s[1..])
  }

  lemma {:induction false} EvictOldestInPlace(s: seq<Item>, w: Wording)
    requires InlineImageCount(s) > 0
    ensures EvictOldest(s, w) == s[OldestItem(s) := EvictFromItem(s[OldestItem(s)], w)]
  {
    hide EvictFromItem, PartImages, PartsOf;
    if PartImages(PartsOf(s[0])) == 0 {
      EvictOldestInPlace(s[1..], w);
      var k := OldestItem(s[1..]);
      assert OldestItem(s) == 1 + k && s[1 + k] == s[1..][k];
      var y := EvictFromItem(s[1..][k], w);
      assert s[1 + k := y] == [s[0]] + s[1..][k := y];
    } else {
      assert OldestItem(s) == 0;
    }
  }

  function FirstFound(x: Item, item: nat): FoundImage
    requires PartImages(PartsOf(x)) > 0
  {
    var i := FirstImage(PartsOf(x));
    FoundImage(if x.User? then UserSlot(item, i) else InToolResult(item), PartBytes(EncodedUrlBytes, PartsOf(x)[i]))
  }

  lemma FindInItemAfter(x: Item, w: Wording, item: nat)
    requires PartImages(PartsOf(x)) > 0
    ensures FindInItem(x, item) == [FirstFound(x, item)] + FindInItem(EvictFromItem(x, w), item)
  {
    hide PartBytes, EncodedUrlBytes, FindInUser, FindInToolResult, WithNote;
    if x.User? {
      FindInUserAfter(x.content, Text(w.placeholder), item, 0);
    } else {
      FindInToolResultAfter(x.images, item);
    }
  }

  /** Evicting the oldest image takes exactly the first entry off the list of images. */
  lemma {:induction false} FindImagesAfter(s: seq<Item>, w: Wording, item: nat)
    requires InlineImageCount(s) > 0
    ensures FindImages(s, item) == [FirstFound(s[OldestItem(s)], item + OldestItem(s))] +
              FindImages(EvictOldest(s, w), item)
  {
    hide FindInItem, FirstFound, EvictFromItem, PartImages, FindImages;
    FindImagesStep(s, item);
    FindImagesStep(EvictOldest(s, w), item);
    if PartImages(PartsOf(s[0])) > 0 {
      FindInItemAfter(s[0], w, item);
      assert EvictOldest(s, w)[1..] == s[1..];
    } else {
      NothingToFind(s[0], item);
      FindImagesAfter(s[1..], w, item + 1);
      assert EvictOldest(s, w)[1..] == EvictOldest(s[1..], w);
    }
  }

  lemma FindImagesStep(s: seq<Item>, item: nat)
    requires s != []
    ensures FindImages(s, item) == FindInItem(s[0], item) + FindImages(s[1..], item + 1)
    ensures FindInItem(s[0], item) == [] ==> FindImages(s, item) == FindImages(s[1..], item + 1)
  {
  }

  lemma NothingToFind(x: Item, item: nat)
    requires PartImages(PartsOf(x)) == 0
    ensures FindInItem(x, item) == []
  {
    NoImagesToFind(x, item, 0);
  }

  lemma {:induction false} FindImagesCounts(s: seq<Item>, item: nat)
    ensures |FindImages(s, item)| == InlineImageCount(s)
  {
    if s != [] {
      FindInItemCounts(s[0], item, 0);
      FindImagesCounts(s[1..], item + 1);
    }
  }

  lemma {:induction false} FindInItemCounts(x: Item, item: nat, part: nat)
    ensures |FindInUser(PartsOf(x), item, part)| == |FindInToolResult(PartsOf(x), item)| == PartImages(PartsOf(x))
    decreases |PartsOf(x)|
  {
    if PartsOf(x) != [] {
      FindInItemCounts(User(PartsOf(x)[1..], Human), item, part + 1);
    }
  }

  /** What is left to find after n evictions is the list found up front without its first n entries. */
  lemma {:induction false} EvictsAnOldestFirstPrefix(s: seq<Item>, w: Wording, n: nat)
    requires n <= InlineImageCount(s)
    ensures |FindImages(s, 0)| == InlineImageCount(s)
    ensures FindImages(EvictN(s, w, n), 0) == FindImages(s, 0)[n..]
  {
    hide *;
    FindImagesCounts(s, 0);
    if n == 0 {
      EvictNone(s, w);
    } else {
      EvictsAnOldestFirstPrefix(s, w, n - 1);
      EvictOneMore(s, w, n);
      var before := EvictN(s, w, n - 1);
      FindImagesAfter(before, w, 0);
      DropOne(FindImages(s, 0), n, FirstFound(before[OldestItem(before)], 0 + OldestItem(before)),
        FindImages(EvictN(s, w, n), 0));
    }
  }

  lemma EvictNone(s: seq<Item>, w: Wording)
    ensures EvictN(s, w, 0) == s
  {
  }

  lemma EvictOneMore(s: seq<Item>, w: Wording, n: nat)
    requires 0 < n <= InlineImageCount(s)
    ensures EvictN(s, w, n) == EvictOldest(EvictN(s, w, n - 1), w)
  {
  }

  lemma DropOne<T>(l: seq<T>, n: nat, x: T, rest: seq<T>)
    requires 0 < n <= |l| && l[n - 1..] == [x] + rest
    ensures rest == l[n..] && l[n - 1] == x
  {
    assert l[n..] == l[n - 1..][1..];
  }

  // ---------------------------------------------------------------- the running estimate

  function MeasuredBytes(frame: Item -> nat, s: seq<Item>): nat {
    BodyBytes(frame, EncodedUrlBytes, s)
  }

  function PlaceholderBytes(w: Wording): nat {
    PartBytes(EncodedUrlBytes, Text(w.placeholder))
  }

  function NoteBytes(w: Wording): nat {
    EscapedBytes("\n\n" + w.note)
  }

  function NoteCost(x: Item, w: Wording): nat
    requires x.ToolResult?
  {
    if Contains(x.text, w.note) then 0 else NoteBytes(w)
  }

  function OldestBytes(x: Item): nat
    requires PartImages(PartsOf(x)) > 0
  {
    PartBytes(EncodedUrlBytes, PartsOf(x)[FirstImage(PartsOf(x))])
  }

  /** The estimate after one eviction from an item; it never notices that an emptied images field is dropped. */
  function NextRunning(running: nat, x: Item, w: Wording): nat
    requires PartImages(PartsOf(x)) > 0
  {
    if x.User? then Minus(running, Minus(OldestBytes(x), PlaceholderBytes(w)))
    else Minus(running, OldestBytes(x) + if |x.images| > 1 then 1 else 0) + NoteCost(x, w)
  }

  /** The item the n-th eviction takes an image from. */
  function Victim(s: seq<Item>, w: Wording, n: nat): (x: Item)
    requires n < InlineImageCount(s)
    ensures PartImages(PartsOf(x)) > 0
  {
    EvictN(s, w, n)[OldestItem(EvictN(s, w, n))]
  }

  function Running(s: seq<Item>, w: Wording, current: nat, n: nat): nat
    requires n <= InlineImageCount(s)
  {
    if n == 0 then current else NextRunning(Running(s, w, current, n - 1), Victim(s, w, n - 1), w)
  }

  /** By how much the evicted user images were smaller than the placeholder that replaced them. */
  function Shortfall(s: seq<Item>, w: Wording, n: nat): nat
    requires n <= InlineImageCount(s)
  {
    if n == 0 then 0
    else
      var x := Victim(s, w, n - 1);
      Shortfall(s, w, n - 1) + if x.User? then Minus(PlaceholderBytes(w), OldestBytes(x)) else 0
  }

  /** The bytes of the images fields that went away with their last element. */
  function DroppedFieldBytes(s: seq<Item>, w: Wording, n: nat): nat
    requires n <= InlineImageCount(s)
  {
    if n == 0 then 0
    else
      var x := Victim(s, w, n - 1);
      DroppedFieldBytes(s, w, n - 1) + if x.ToolResult? && |x.images| == 1 then IMAGES_FIELD_BYTES else 0
  }

  lemma {:induction false} EvictPartBytes(parts: seq<ContentPart>, p: ContentPart)
    requires PartImages(parts) > 0
    ensures var i := FirstImage(parts);
            && PartsBytes(EncodedUrlBytes, parts[i := p]) + PartBytes(EncodedUrlBytes, parts[i]) ==
               PartsBytes(EncodedUrlBytes, parts) + PartBytes(EncodedUrlBytes, p)
            && PartsBytes(EncodedUrlBytes, parts[..i] + parts[i + 1..]) + PartBytes(EncodedUrlBytes, parts[i]) ==
               PartsBytes(EncodedUrlBytes, parts)
  {
    hide PartBytes, EncodedUrlBytes;
    var i := FirstImage(parts);
    if i == 0 {
      assert parts[0 := p][1..] == parts[1..];
      assert parts[..0] + parts[1..] == parts[1..];
    } else {
      EvictPartBytes(parts[1..], p);
      assert parts[i := p][1..] == parts[1..][i - 1 := p];
      assert (parts[..i] + parts[i + 1..])[1..] == parts[1..][..i - 1] + parts[1..][i..];
    }
  }

  lemma EvictFromUserBytes(frame: Item -> nat, x: Item, w: Wording)
    requires x.User? && PartImages(x.content) > 0
    ensures ItemBytes(frame, EncodedUrlBytes, EvictFromItem(x, w)) + OldestBytes(x) ==
            ItemBytes(frame, EncodedUrlBytes, x) + PlaceholderBytes(w)
  {
    hide PartBytes, EncodedUrlBytes, PartsBytes, FirstImage;
    EvictPartBytes(x.content, Text(w.placeholder));
  }

  lemma WithNoteBytes(text: string, w: Wording)
    ensures EscapedBytes(WithNote(text, w)) == EscapedBytes(text) + if Contains(text, w.note) then 0 else NoteBytes(w)
  {
    hide EscapedBytes, Contains;
    assert text + "\n\n" + w.note == text + ("\n\n" + w.note);
    EscapedConcat(text, "\n\n" + w.note);
  }

  lemma EvictFromToolResultBytes(frame: Item -> nat, x: Item, w: Wording)
    requires x.ToolResult? && PartImages(x.images) > 0
    ensures ItemBytes(frame, EncodedUrlBytes, EvictFromItem(x, w)) + OldestBytes(x) +
            (if |x.images| == 1 then IMAGES_FIELD_BYTES else 1) ==
            ItemBytes(frame, EncodedUrlBytes, x) + NoteCost(x, w)
  {
    hide PartBytes, EncodedUrlBytes, EscapedBytes, Contains, NoteBytes, WithNote, FirstImage;
    EvictPartBytes(x.images, Image(""));
    WithNoteBytes(x.text, w);
    var i := FirstImage(x.images);
    var y := EvictFromItem(x, w);
    assert y.(text := "", images := []) == x.(text := "", images := []);
    assert |y.images| == |x.images| - 1;
  }

  lemma {:induction false} OneItemChanged(frame: Item -> nat, s: seq<Item>, k: nat, y: Item)
    requires k < |s|
    ensures ItemsBytes(frame, EncodedUrlBytes, s[k := y]) + ItemBytes(frame, EncodedUrlBytes, s[k]) ==
            ItemsBytes(frame, EncodedUrlBytes, s) + ItemBytes(frame, EncodedUrlBytes, y)
  {
    hide ItemBytes, EncodedUrlBytes;
    if k > 0 {
      OneItemChanged(frame, s[1..], k - 1, y);
      assert s[k := y][1..] == s[1..][k - 1 := y];
    } else {
      assert s[0 := y][1..] == s[1..];
    }
  }

  /** What one eviction does to the measured body. */
  lemma OneEvictionBytes(frame: Item -> nat, s: seq<Item>, w: Wording)
    requires InlineImageCount(s) > 0
    ensures var x := s[OldestItem(s)];
            var after := MeasuredBytes(frame, EvictOldest(s, w));
            && OldestBytes(x) < MeasuredBytes(frame, s)
            && (x.User? ==> after + OldestBytes(x) == MeasuredBytes(frame, s) + PlaceholderBytes(w))
            && (x.ToolResult? ==>
                  after + OldestBytes(x) + (if |x.images| == 1 then IMAGES_FIELD_BYTES else 1) ==
                  MeasuredBytes(frame, s) + NoteCost(x, w)
                  && OldestBytes(x) + 1 < MeasuredBytes(frame, s))
  {
    hide ItemBytes, EncodedUrlBytes, OldestBytes, EvictFromItem, NoteCost, PlaceholderBytes, OldestItem, PartImages,
         ItemsBytes;
    var k := OldestItem(s);
    EvictOldestInPlace(s, w);
    EvictOldestCounts(s, w);
    OneItemChanged(frame, s, k, EvictFromItem(s[k], w));
    OneItemIsPart(frame, s, k);
    OldestIsPart(frame, s[k]);
    if s[k].User? {
      EvictFromUserBytes(frame, s[k], w);
    } else {
      EvictFromToolResultBytes(frame, s[k], w);
    }
  }

  lemma {:induction false} OneItemIsPart(frame: Item -> nat, s: seq<Item>, k: nat)
    requires k < |s|
    ensures ItemBytes(frame, EncodedUrlBytes, s[k]) <= ItemsBytes(frame, EncodedUrlBytes, s)
  {
    hide ItemBytes, EncodedUrlBytes;
    if k > 0 {
      OneItemIsPart(frame, s[1..], k - 1);
    }
  }

  lemma OldestIsPart(frame: Item -> nat, x: Item)
    requires PartImages(PartsOf(x)) > 0
    ensures OldestBytes(x) <= ItemBytes(frame, EncodedUrlBytes, x)
    ensures x.User? || x.ToolResult?
  {
    hide PartBytes, EncodedUrlBytes, PartImages, FirstImage, EscapedBytes;
    EvictPartBytes(PartsOf(x), Image(""));
    assert PartImages([]) == 0 by { EmptyHasNoImages(); }
  }

  lemma EmptyHasNoImages()
    ensures PartImages([]) == 0
  {
  }

  // ---------------------------------------------------------------- the estimate never saturates

  /** The bytes of the text parts. */
  function TextPartsBytes(parts: seq<ContentPart>): nat {
    if parts == [] then 0
    else (if parts[0].Text? then PartBytes(EncodedUrlBytes, parts[0]) else 0) + TextPartsBytes(parts[1..])
  }

  /** The bytes of the text parts of the user items. Placeholders are among them, and evictions take none away. */
  function UserTextBytes(s: seq<Item>): nat {
    if s == [] then 0 else (if s[0].User? then TextPartsBytes(s[0].content) else 0) + UserTextBytes(s[1..])
  }

  lemma {:induction false} TextPartsAreParts(parts: seq<ContentPart>)
    ensures TextPartsBytes(parts) <= PartsBytes(EncodedUrlBytes, parts)
  {
    hide PartBytes, EncodedUrlBytes;
    if parts != [] {
      TextPartsAreParts(parts[1..]);
    }
  }

  lemma {:induction false} EvictAddsText(parts: seq<ContentPart>, p: ContentPart)
    requires PartImages(parts) > 0 && p.Text?
    ensures var i := FirstImage(parts);
            && TextPartsBytes(parts[i := p]) == TextPartsBytes(parts) + PartBytes(EncodedUrlBytes, p)
            && TextPartsBytes(parts) + PartBytes(EncodedUrlBytes, parts[i]) <= PartsBytes(EncodedUrlBytes, parts)
  {
    hide PartBytes, EncodedUrlBytes;
    var i := FirstImage(parts);
    if i == 0 {
      assert parts[0 := p][1..] == parts[1..];
      TextPartsAreParts(parts[1..]);
    } else {
      EvictAddsText(parts[1..], p);
      assert parts[i := p][1..] == parts[1..][i - 1 := p];
    }
  }

  lemma {:induction false} TextsOfOneChanged(s: seq<Item>, k: nat, y: Item)
    requires k < |s| && s[k].User? == y.User?
    ensures s[k].User? ==>
              UserTextBytes(s[k := y]) + TextPartsBytes(s[k].content) == UserTextBytes(s) + TextPartsBytes(y.content)
    ensures !s[k].User? ==> UserTextBytes(s[k := y]) == UserTextBytes(s)
  {
    hide TextPartsBytes;
    if k > 0 {
      TextsOfOneChanged(s[1..], k - 1, y);
      assert s[k := y][1..] == s[1..][k - 1 := y];
    } else {
      assert s[0 := y][1..] == s[1..];
    }
  }

  lemma TextsArePart(frame: Item -> nat, x: Item)
    ensures (if x.User? then TextPartsBytes(x.content) else 0) <= ItemBytes(frame, EncodedUrlBytes, x)
  {
    hide PartsBytes, TextPartsBytes, EscapedBytes, EncodedUrlBytes;
    if x.User? {
      TextPartsAreParts(x.content);
    }
  }

  /** The texts leave room for the oldest image, and for the comma behind it in a tool result. */
  lemma OldestBesidesTexts(frame: Item -> nat, x: Item)
    requires PartImages(PartsOf(x)) > 0
    ensures (if x.User? then TextPartsBytes(x.content) else 1) + OldestBytes(x) <= ItemBytes(frame, EncodedUrlBytes, x)
  {
    hide PartBytes, EncodedUrlBytes, FirstImage, EscapedBytes, TextPartsBytes;
    if x.User? {
      EvictAddsText(x.content, Text(""));
    } else {
      EvictPartBytes(PartsOf(x), Image(""));
    }
  }

  lemma {:induction false} TextsLeaveRoom(frame: Item -> nat, s: seq<Item>, k: nat)
    requires k < |s| && PartImages(PartsOf(s[k])) > 0
    ensures UserTextBytes(s) + OldestBytes(s[k]) + (if s[k].User? then 0 else 1) <=
            ItemsBytes(frame, EncodedUrlBytes, s)
    decreases |s|
  {
    hide ItemBytes, EncodedUrlBytes, OldestBytes, TextPartsBytes, PartImages;
    if k > 0 {
      TextsLeaveRoom(frame, s[1..], k - 1);
      TextsArePart(frame, s[0]);
    } else {
      OldestBesidesTexts(frame, s[0]);
      AllTextsArePart(frame, s[1..]);
    }
  }

  lemma {:induction false} AllTextsArePart(frame: Item -> nat, s: seq<Item>)
    ensures UserTextBytes(s) <= ItemsBytes(frame, EncodedUrlBytes, s)
  {
    hide ItemBytes, EncodedUrlBytes, TextPartsBytes;
    if s != [] {
      TextsArePart(frame, s[0]);
      AllTextsArePart(frame, s[1..]);
    }
  }

  /** What one eviction does to the texts, and how much is there besides them. */
  lemma OneEvictionTexts(frame: Item -> nat, s: seq<Item>, w: Wording)
    requires InlineImageCount(s) > 0
    ensures var x := s[OldestItem(s)];
            && UserTextBytes(EvictOldest(s, w)) == UserTextBytes(s) + (if x.User? then PlaceholderBytes(w) else 0)
            && UserTextBytes(s) + OldestBytes(x) + (if x.User? then 0 else 1) <= MeasuredBytes(frame, s)
  {
    hide ItemBytes, ItemsBytes, EncodedUrlBytes, PartBytes, TextPartsBytes, FirstImage, OldestItem, PartImages,
         UserTextBytes, WithNote;
    var k := OldestItem(s);
    EvictOldestInPlace(s, w);
    TextsOfOneChanged(s, k, EvictFromItem(s[k], w));
    TextsLeaveRoom(frame, s, k);
    if s[k].User? {
      EvictAddsText(s[k].content, Text(w.placeholder));
    }
  }

  /** The shortfall of the evictions so far is made up of placeholders, which are still there. */
  lemma {:induction false} ShortfallIsText(frame: Item -> nat, s: seq<Item>, w: Wording, n: nat)
    requires n <= InlineImageCount(s)
    ensures Shortfall(s, w, n) <= UserTextBytes(EvictN(s, w, n))
  {
    hide *;
    StartOfRun(s, w, 0);
    if n > 0 {
      ShortfallIsText(frame, s, w, n - 1);
      EvictOneMore(s, w, n);
      NextOfRun(s, w, 0, n);
      OneEvictionTexts(frame, EvictN(s, w, n - 1), w);
      MinusIsAtMost(PlaceholderBytes(w), OldestBytes(Victim(s, w, n - 1)));
    }
  }

  lemma MinusIsAtMost(a: nat, b: nat)
    ensures Minus(a, b) <= a
  {
  }

  /**
   The estimate is exact at every number of evictions: it misses the shortfall of small user images and it does not
   notice the dropped images fields, and nothing else. In particular it never saturates.
   */
  lemma {:induction false} RunningTracksBody(frame: Item -> nat, s: seq<Item>, w: Wording, n: nat)
    requires n <= InlineImageCount(s)
    ensures Running(s, w, MeasuredBytes(frame, s), n) + Shortfall(s, w, n) ==
            MeasuredBytes(frame, EvictN(s, w, n)) + DroppedFieldBytes(s, w, n)
  {
    hide *;
    StartOfRun(s, w, MeasuredBytes(frame, s));
    if n > 0 {
      RunningTracksBody(frame, s, w, n - 1);
      EvictOneMore(s, w, n);
      NextOfRun(s, w, MeasuredBytes(frame, s), n);
      var x := Victim(s, w, n - 1);
      var before := EvictN(s, w, n - 1);
      OneEvictionBytes(frame, before, w);
      OneEvictionTexts(frame, before, w);
      ShortfallIsText(frame, s, w, n - 1);
      OldestIsPart(frame, x);
      OneStepTracks(x, w, Running(s, w, MeasuredBytes(frame, s), n - 1), Shortfall(s, w, n - 1),
                    DroppedFieldBytes(s, w, n - 1),
                    MeasuredBytes(frame, before), MeasuredBytes(frame, EvictN(s, w, n)));
    }
  }

  lemma StartOfRun(s: seq<Item>, w: Wording, current: nat)
    ensures EvictN(s, w, 0) == s && Running(s, w, current, 0) == current
    ensures Shortfall(s, w, 0) == DroppedFieldBytes(s, w, 0) == 0
  {
  }

  lemma NextOfRun(s: seq<Item>, w: Wording, current: nat, n: nat)
    requires 0 < n <= InlineImageCount(s)
    ensures var x := Victim(s, w, n - 1);
            && InlineImageCount(EvictN(s, w, n - 1)) > 0
            && x == EvictN(s, w, n - 1)[OldestItem(EvictN(s, w, n - 1))]
            && PartImages(PartsOf(x)) > 0
            && Running(s, w, current, n) == NextRunning(Running(s, w, current, n - 1), x, w)
            && Shortfall(s, w, n) ==
               Shortfall(s, w, n - 1) + (if x.User? then Minus(PlaceholderBytes(w), OldestBytes(x)) else 0)
            && DroppedFieldBytes(s, w, n) ==
               DroppedFieldBytes(s, w, n - 1) + if x.ToolResult? && |x.images| == 1 then IMAGES_FIELD_BYTES else 0
  {
    hide NextRunning, OldestBytes, PlaceholderBytes, EvictN, OldestItem, PartImages;
  }

  lemma OneStepTracks(x: Item, w: Wording, running: nat, shortfall: nat, dropped: nat, body: nat, after: nat)
    requires PartImages(PartsOf(x)) > 0
    requires shortfall + OldestBytes(x) + (if x.User? then 0 else 1) <= body
    requires running + shortfall == body + dropped
    requires x.User? ==> after + OldestBytes(x) == body + PlaceholderBytes(w)
    requires x.ToolResult? ==>
               after + OldestBytes(x) + (if |x.images| == 1 then IMAGES_FIELD_BYTES else 1) == body + NoteCost(x, w)
    ensures var shortfall' := shortfall + if x.User? then Minus(PlaceholderBytes(w), OldestBytes(x)) else 0;
            var dropped' := dropped + if x.ToolResult? && |x.images| == 1 then IMAGES_FIELD_BYTES else 0;
            NextRunning(running, x, w) + shortfall' == after + dropped'
  {
    hide OldestBytes, PlaceholderBytes, NoteCost, PartImages;
    assert x.ToolResult? ==> PartsOf(x) == x.images;
    EmptyHasNoImages();
  }

  // ---------------------------------------------------------------- when the loop stops

  /** The first number of evictions, from n on, whose estimate reaches the target; all of them if none does. */
  function EvictCount(s: seq<Item>, w: Wording, current: nat, target: nat, n: nat): (r: nat)
    requires n <= InlineImageCount(s)
    ensures n <= r <= InlineImageCount(s)
    decreases InlineImageCount(s) - n
  {
    hide Running, InlineImageCount;
    if n == InlineImageCount(s) || Running(s, w, current, n) <= target then n
    else EvictCount(s, w, current, target, n + 1)
  }

  lemma {:induction false} EvictCountIsFirst(s: seq<Item>, w: Wording, current: nat, target: nat, n: nat)
    requires n <= InlineImageCount(s)
    ensures var r := EvictCount(s, w, current, target, n);
            && (r < InlineImageCount(s) ==> Running(s, w, current, r) <= target)
            && (forall m | n <= m < r :: Running(s, w, current, m) > target)
    decreases InlineImageCount(s) - n
  {
    hide Running, InlineImageCount;
    if !(n == InlineImageCount(s) || Running(s, w, current, n) <= target) {
      EvictCountIsFirst(s, w, current, target, n + 1);
    }
  }

  datatype ImageBudgetOutcome = ImageBudgetOutcome(
    bodyBytes: nat, bodyBytesAfter: nat, inlineImages: nat, needsImageCompaction: bool, evicted: nat)

  datatype BudgetedConversation = BudgetedConversation(items: seq<Item>, outcome: ImageBudgetOutcome)

  function ApplyImageBudget(
    frame: Item -> nat, s: seq<Item>, w: Wording, trigger: nat, target: nat): BudgetedConversation
  {
    var body := MeasuredBytes(frame, s);
    var evicted := if body >= trigger && body > target then EvictCount(s, w, body, target, 0) else 0;
    var items := EvictN(s, w, evicted);
    var after := MeasuredBytes(frame, items);
    BudgetedConversation(items, ImageBudgetOutcome(body, after, InlineImageCount(s), body >= trigger, evicted))
  }

  /**
   When the body needs compaction, eviction ends with no image left or with a body at most the shortfall above the
   target, less the images fields that were dropped. It stops as early as its estimate allows: every shorter prefix of
   evictions would have left a body above the target, counting what the estimate does not see.
   */
  lemma EvictionReachesTarget(frame: Item -> nat, s: seq<Item>, w: Wording, trigger: nat, target: nat)
    requires MeasuredBytes(frame, s) >= trigger
    ensures var out := ApplyImageBudget(frame, s, w, trigger, target);
            var n := out.outcome.evicted;
            && n <= InlineImageCount(s)
            && InlineImageCount(out.items) == InlineImageCount(s) - n
            && (InlineImageCount(out.items) == 0 ||
                out.outcome.bodyBytesAfter + DroppedFieldBytes(s, w, n) <= target + Shortfall(s, w, n))
            && forall m | 0 <= m < n ::
                 MeasuredBytes(frame, EvictN(s, w, m)) + DroppedFieldBytes(s, w, m) > target + Shortfall(s, w, m)
  {
    hide MeasuredBytes, EvictN, Running, Shortfall, DroppedFieldBytes, InlineImageCount, EvictCount;
    StartOfRun(s, w, MeasuredBytes(frame, s));
    EvictCountIsFirst(s, w, MeasuredBytes(frame, s), target, 0);
    var n := ApplyImageBudget(frame, s, w, trigger, target).outcome.evicted;
    RunningTracksBody(frame, s, w, n);
    forall m | 0 <= m < n
      ensures MeasuredBytes(frame, EvictN(s, w, m)) + DroppedFieldBytes(s, w, m) > target + Shortfall(s, w, m)
    {
      RunningTracksBody(frame, s, w, m);
    }
  }

  // ---------------------------------------------------------------- when the target is missed

  /** If a pass begins, it ends with no image left or with a body within the target. */
  predicate MeetsTarget(frame: Item -> nat, s: seq<Item>, w: Wording, trigger: nat, target: nat) {
    var out := ApplyImageBudget(frame, s, w, trigger, target);
    out.outcome.needsImageCompaction ==> InlineImageCount(out.items) == 0 || out.outcome.bodyBytesAfter <= target
  }

  /**
   A pass ends above its target with an image left exactly if it stopped early, and the shortfall by then is more than
   the dropped fields and the room that the estimate saw below the target.
   */
  lemma TargetIsMissedExactly(frame: Item -> nat, s: seq<Item>, w: Wording, trigger: nat, target: nat)
    requires MeasuredBytes(frame, s) >= trigger
    ensures var n := ApplyImageBudget(frame, s, w, trigger, target).outcome.evicted;
            !MeetsTarget(frame, s, w, trigger, target) <==>
              n < InlineImageCount(s) &&
              Running(s, w, MeasuredBytes(frame, s), n) + Shortfall(s, w, n) > target + DroppedFieldBytes(s, w, n)
    ensures var n := ApplyImageBudget(frame, s, w, trigger, target).outcome.evicted;
            n < InlineImageCount(s) ==> Running(s, w, MeasuredBytes(frame, s), n) <= target
  {
    hide MeasuredBytes, EvictN, Running, Shortfall, DroppedFieldBytes, InlineImageCount, EvictCount;
    StartOfRun(s, w, MeasuredBytes(frame, s));
    EvictCountIsFirst(s, w, MeasuredBytes(frame, s), target, 0);
    RunningTracksBody(frame, s, w, ApplyImageBudget(frame, s, w, trigger, target).outcome.evicted);
  }

  /** The estimate is lower after n evictions than it ever was before. */
  ghost predicate IsNewLow(s: seq<Item>, w: Wording, current: nat, n: nat)
    requires n <= InlineImageCount(s)
  {
    forall m | 0 <= m < n :: Running(s, w, current, m) > Running(s, w, current, n)
  }

  /** Wherever a pass could stop, the shortfall by then is covered by dropped images fields. */
  ghost predicate ShortfallIsCovered(s: seq<Item>, w: Wording, current: nat) {
    forall n | 0 <= n < InlineImageCount(s) && IsNewLow(s, w, current, n) ::
      Shortfall(s, w, n) <= DroppedFieldBytes(s, w, n)
  }

  lemma CoveredMeetsTarget(frame: Item -> nat, s: seq<Item>, w: Wording, trigger: nat, target: nat)
    requires ShortfallIsCovered(s, w, MeasuredBytes(frame, s))
    ensures MeetsTarget(frame, s, w, trigger, target)
  {
    hide MeasuredBytes, EvictN, Running, Shortfall, DroppedFieldBytes, InlineImageCount, EvictCount, MeetsTarget;
    var body := MeasuredBytes(frame, s);
    if body >= trigger {
      StartOfRun(s, w, body);
      EvictCountIsFirst(s, w, body, target, 0);
      TargetIsMissedExactly(frame, s, w, trigger, target);
      var n := ApplyImageBudget(frame, s, w, trigger, target).outcome.evicted;
      assert n < InlineImageCount(s) ==> IsNewLow(s, w, body, n);
    } else {
      NoPassMeetsTarget(frame, s, w, trigger, target);
    }
  }

  lemma NoPassMeetsTarget(frame: Item -> nat, s: seq<Item>, w: Wording, trigger: nat, target: nat)
    requires MeasuredBytes(frame, s) < trigger
    ensures MeetsTarget(frame, s, w, trigger, target)
  {
    hide MeasuredBytes, EvictN, InlineImageCount;
  }

  lemma {:induction false} StopsAtNewLow(s: seq<Item>, w: Wording, current: nat, n: nat, from: nat)
    requires from <= n < InlineImageCount(s) && IsNewLow(s, w, current, n)
    ensures EvictCount(s, w, current, Running(s, w, current, n), from) == n
    decreases n - from
  {
    hide Running, InlineImageCount;
    if from < n {
      StopsAtNewLow(s, w, current, n, from + 1);
    }
  }

  lemma UncoveredMissesTarget(frame: Item -> nat, s: seq<Item>, w: Wording, n: nat)
    requires n < InlineImageCount(s) && IsNewLow(s, w, MeasuredBytes(frame, s), n)
    requires Shortfall(s, w, n) > DroppedFieldBytes(s, w, n)
    ensures var body := MeasuredBytes(frame, s);
            var target := Running(s, w, body, n);
            target < body && !MeetsTarget(frame, s, w, body, target)
  {
    hide MeasuredBytes, EvictN, Running, Shortfall, DroppedFieldBytes, InlineImageCount, EvictCount, MeetsTarget;
    var body := MeasuredBytes(frame, s);
    StartOfRun(s, w, body);
    StopsAtNewLow(s, w, body, n, 0);
    TargetIsMissedExactly(frame, s, w, body, Running(s, w, body, n));
  }

  /**
   Every pair of limits is met exactly if the shortfall is covered wherever the estimate reaches a new low. That can be
   read off the sizes of the images and the wording before the call.
   */
  lemma LimitsAreMetExactly(frame: Item -> nat, s: seq<Item>, w: Wording)
    ensures ShortfallIsCovered(s, w, MeasuredBytes(frame, s)) <==>
              forall trigger, target: nat | target < trigger :: MeetsTarget(frame, s, w, trigger, target)
    ensures ShortfallIsCovered(s, w, MeasuredBytes(frame, s)) ==>
              forall trigger, target: nat :: MeetsTarget(frame, s, w, trigger, target)
  {
    hide MeasuredBytes, Running, Shortfall, DroppedFieldBytes, InlineImageCount, MeetsTarget, IsNewLow;
    var body := MeasuredBytes(frame, s);
    if ShortfallIsCovered(s, w, body) {
      forall trigger, target: nat ensures MeetsTarget(frame, s, w, trigger, target) {
        CoveredMeetsTarget(frame, s, w, trigger, target);
      }
    } else {
      var n :| 0 <= n < InlineImageCount(s) && IsNewLow(s, w, body, n) &&
               Shortfall(s, w, n) > DroppedFieldBytes(s, w, n);
      UncoveredMissesTarget(frame, s, w, n);
    }
  }

  /** How much smaller than the placeholder the found user images are, in all. */
  function Deficit(found: seq<FoundImage>, w: Wording): nat {
    if found == [] then 0
    else
      var last := found[|found| - 1];
      Deficit(found[..|found| - 1], w) + if last.location.UserSlot? then Minus(PlaceholderBytes(w), last.bytes) else 0
  }

  /** The shortfall is a sum over the list of images found up front. */
  lemma {:induction false} ShortfallIsDeficit(s: seq<Item>, w: Wording, n: nat)
    requires n <= InlineImageCount(s)
    ensures |FindImages(s, 0)| == InlineImageCount(s)
    ensures Shortfall(s, w, n) == Deficit(FindImages(s, 0)[..n], w)
  {
    hide EvictN, EvictOldest, PlaceholderBytes, OldestBytes, FindImages, FirstFound, InlineImageCount, OldestItem,
         PartImages, Shortfall, Deficit, Minus;
    EvictsAnOldestFirstPrefix(s, w, n);
    StartOfRun(s, w, 0);
    assert Deficit(FindImages(s, 0)[..0], w) == 0 by { NoDeficit(w); }
    if n > 0 {
      ShortfallIsDeficit(s, w, n - 1);
      EvictsAnOldestFirstPrefix(s, w, n - 1);
      NextOfRun(s, w, 0, n);
      var before := EvictN(s, w, n - 1);
      FindImagesAfter(before, w, 0);
      var (list, x) := (FindImages(s, 0), Victim(s, w, n - 1));
      FirstFoundBytes(x, 0 + OldestItem(before));
      DropOne(list, n, FirstFound(x, 0 + OldestItem(before)), FindImages(EvictOldest(before, w), 0));
      OneMoreDeficit(list, w, n);
    }
  }

  lemma NoDeficit(w: Wording)
    ensures Deficit([], w) == 0
  {
  }

  lemma OneMoreDeficit(found: seq<FoundImage>, w: Wording, n: nat)
    requires 0 < n <= |found|
    ensures var last := found[n - 1];
            Deficit(found[..n], w) ==
            Deficit(found[..n - 1], w) + if last.location.UserSlot? then Minus(PlaceholderBytes(w), last.bytes) else 0
  {
    assert found[..n][..n - 1] == found[..n - 1];
  }

  lemma FirstFoundBytes(x: Item, item: nat)
    requires PartImages(PartsOf(x)) > 0
    ensures FirstFound(x, item).bytes == OldestBytes(x)
    ensures FirstFound(x, item).location.UserSlot? <==> x.User?
  {
    hide PartBytes, EncodedUrlBytes;
  }

  /** A second application evicts something exactly when the first left images and a body above both limits. */
  lemma SecondApplication(frame: Item -> nat, s: seq<Item>, w: Wording, trigger: nat, target: nat)
    ensures var once := ApplyImageBudget(frame, s, w, trigger, target);
            var twice := ApplyImageBudget(frame, once.items, w, trigger, target);
            && (twice.outcome.evicted > 0 <==>
                  InlineImageCount(once.items) > 0 && once.outcome.bodyBytesAfter >= trigger &&
                  once.outcome.bodyBytesAfter > target)
            && (Shortfall(s, w, once.outcome.evicted) == 0 ==> twice.outcome.evicted == 0 && twice.items == once.items)
  {
    hide MeasuredBytes, EvictN, Running, Shortfall, InlineImageCount, EvictCount;
    var once := ApplyImageBudget(frame, s, w, trigger, target);
    StartOfRun(s, w, MeasuredBytes(frame, s));
    var body := MeasuredBytes(frame, once.items);
    StartOfRun(once.items, w, body);
    EvictCountIsFirst(once.items, w, body, target, 0);
    if MeasuredBytes(frame, s) >= trigger {
      EvictionReachesTarget(frame, s, w, trigger, target);
    }
  }

  function Letters(n: nat): (r: string)
    ensures |r| == n && forall k | 0 <= k < n :: r[k] == 'a'
  {
    if n == 0 then "" else "a" + Letters(n - 1)
  }

  lemma {:induction false} LettersBytes(n: nat)
    ensures EscapedBytes(Letters(n)) == EncodedUrlBytes(Letters(n)) == n
  {
    if n > 0 {
      assert Letters(n)[1..] == Letters(n - 1);
      LettersBytes(n - 1);
    }
    hide EscapedBytes, Find;
    FoundIsLeftmost(Letters(n), ",");
  }

  lemma EscapedIsNotEmpty(s: string)
    requires s != ""
    ensures EscapedBytes(s) > 0
  {
  }

  /** A user item with one part. */
  function Single(p: ContentPart): Item {
    User([p], Human)
  }

  /** An image without bytes, one that takes a byte more than the placeholder, and another without bytes. */
  function TinyHistory(w: Wording): seq<Item> {
    var larger := Single(Image(Letters(EscapedBytes(w.placeholder) + 1)));
    [Single(Image("")), larger, Single(Image(""))]
  }

  /**
   With a shortfall the second application can evict again: whatever the placeholder says, the two replaced images of
   this history cost a placeholder more than the estimate sees.
   */
  lemma SmallImagesDefeatTheEstimate(w: Wording)
    requires w.placeholder != ""
    ensures var (s, e) := (TinyHistory(w), EscapedBytes(w.placeholder));
            var (trigger, target) := (86 + e, 85 + e);
            var once := ApplyImageBudget(_ => 0, s, w, trigger, target);
            && once.outcome.evicted == 2 && InlineImageCount(s) == 3
            && Shortfall(s, w, 2) == e && once.outcome.bodyBytesAfter == target + e
            && ApplyImageBudget(_ => 0, once.items, w, trigger, target).outcome.evicted == 1
  {
    hide EncodedUrlBytes, EscapedBytes, PartBytes, ItemBytes, PartImages, EvictFromItem, OldestBytes, PlaceholderBytes,
         EvictN, Victim, InlineImageCount, Running, Shortfall, EvictCount, MeasuredBytes;
    var (s, e) := (TinyHistory(w), EscapedBytes(w.placeholder));
    var p := Single(Text(w.placeholder));
    var (s2, body) := ([p, p, s[0]], 86 + e);
    EscapedIsNotEmpty(w.placeholder);
    TinyEvictions(w);
    TinyEstimates(w);
    TinyBodies(w);
    EvictCountIs(s, w, body, body - 1, 2);
    EvictCountIs(s, w, body, body - 1, 1);
    EvictCountIs(s, w, body, body - 1, 0);
    StartOfRun(s2, w, body - 1 + e);
    EvictCountIs(s2, w, body - 1 + e, body - 1, 0);
    EvictCountIs(s2, w, body - 1 + e, body - 1, 1);
  }

  lemma EvictCountIs(s: seq<Item>, w: Wording, current: nat, target: nat, n: nat)
    requires n <= InlineImageCount(s)
    ensures EvictCount(s, w, current, target, n) ==
            if n == InlineImageCount(s) || Running(s, w, current, n) <= target then n
            else EvictCount(s, w, current, target, n + 1)
  {
    hide Running, InlineImageCount;
  }

  lemma TinyItems(w: Wording)
    ensures var (s, e) := (TinyHistory(w), EscapedBytes(w.placeholder));
            var p := Single(Text(w.placeholder));
            && PartImages(s[0].content) == PartImages(s[1].content) == 1 && PartImages(p.content) == 0
            && EvictFromItem(s[0], w) == EvictFromItem(s[1], w) == p
            && OldestBytes(s[0]) == 25 && OldestBytes(s[1]) == 26 + e && PlaceholderBytes(w) == 25 + e
            && forall frame: Item -> nat | frame(User([], Human)) == 0 ::
                 && ItemBytes(frame, EncodedUrlBytes, s[0]) == 27 && ItemBytes(frame, EncodedUrlBytes, s[1]) == 28 + e
                 && ItemBytes(frame, EncodedUrlBytes, p) == 27 + e
  {
    hide EscapedBytes, EncodedUrlBytes;
    var (s, e) := (TinyHistory(w), EscapedBytes(w.placeholder));
    LettersBytes(0);
    LettersBytes(e + 1);
    var (x, y, z) := (s[0].content, s[1].content, [Text(w.placeholder)]);
    assert x[1..] == y[1..] == z[1..] == [] && x[0 := z[0]] == y[0 := z[0]] == z;
  }

  lemma TinyEvictions(w: Wording)
    ensures var (s, p) := (TinyHistory(w), Single(Text(w.placeholder)));
            && InlineImageCount(s) == 3 && EvictN(s, w, 0) == s && EvictN(s, w, 2) == [p, p, s[0]]
            && Victim(s, w, 0) == s[0] && Victim(s, w, 1) == s[1] && InlineImageCount([p, p, s[0]]) == 1
  {
    hide OldestBytes, PlaceholderBytes, EvictFromItem, PartImages, EscapedBytes, ItemBytes;
    var (s, p) := (TinyHistory(w), Single(Text(w.placeholder)));
    var (a, b) := (s[0], s[1]);
    var s1 := [p, b, a];
    TinyItems(w);
    assert s == [a, b, a] && s[1..] == s1[1..] == [b, a] && [b, a][1..] == [a] && [a][1..] == [];
    assert InlineImageCount([a]) == 1 && InlineImageCount([b, a]) == 2;
    assert InlineImageCount(s1) == 2 && InlineImageCount(s) == 3;
    assert [p, p, a][1..] == [p, a] && [p, a][1..] == [a];
    assert InlineImageCount([p, a]) == 1 && InlineImageCount([p, p, a]) == 1;
    assert OldestItem(s1) == 1 && EvictOldest(s1, w) == [p, p, a];
    EvictOneMore(s, w, 1);
    EvictOneMore(s, w, 2);
    assert EvictN(s, w, 1) == s1 && EvictN(s, w, 2) == [p, p, a];
  }

  lemma TinyEstimates(w: Wording)
    ensures var (s, e) := (TinyHistory(w), EscapedBytes(w.placeholder));
            && InlineImageCount(s) == 3 && Shortfall(s, w, 2) == e
            && Running(s, w, 86 + e, 0) == Running(s, w, 86 + e, 1) == 86 + e
            && Running(s, w, 86 + e, 2) == 85 + e
  {
    hide OldestBytes, PlaceholderBytes, EvictFromItem, PartImages, EscapedBytes, EvictN, Victim, InlineImageCount,
         ItemBytes, TinyHistory;
    var (s, e) := (TinyHistory(w), EscapedBytes(w.placeholder));
    TinyItems(w);
    TinyEvictions(w);
    TinyHumans(w);
    assert Running(s, w, 86 + e, 1) == 86 + e;
    assert Shortfall(s, w, 0) == 0 && Shortfall(s, w, 1) == e;
  }

  lemma TinyHumans(w: Wording)
    ensures |TinyHistory(w)| == 3 && TinyHistory(w)[0].User? && TinyHistory(w)[1].User?
  {
  }

  lemma TinyBodies(w: Wording)
    ensures var (s, e, p) := (TinyHistory(w), EscapedBytes(w.placeholder), Single(Text(w.placeholder)));
            MeasuredBytes(_ => 0, s) == 86 + e && MeasuredBytes(_ => 0, [p, p, s[0]]) == 85 + 2 * e
  {
    hide EscapedBytes, EncodedUrlBytes, ItemBytes, EvictFromItem, OldestBytes, PlaceholderBytes, PartImages;
    var (s, p) := (TinyHistory(w), Single(Text(w.placeholder)));
    var (a, b) := (s[0], s[1]);
    var frame: Item -> nat := _ => 0;
    TinyItems(w);
    assert s == [a, b, a] && [a, b, a][1..] == [b, a] && [b, a][1..] == [a] && [a][1..] == [];
    assert [p, p, a][1..] == [p, a] && [p, a][1..] == [a];
    assert ItemsBytes(frame, EncodedUrlBytes, [a]) == 27;
    assert ItemsBytes(frame, EncodedUrlBytes, [b, a]) == 27 + ItemBytes(frame, EncodedUrlBytes, b);
    assert ItemsBytes(frame, EncodedUrlBytes, [p, a]) == 27 + ItemBytes(frame, EncodedUrlBytes, p);
  }

  // ---------------------------------------------------------------- the evicted history in closed form

  function ReplaceImages(parts: seq<ContentPart>, k: nat, p: ContentPart): seq<ContentPart> {
    if parts == [] then []
    else if k > 0 && parts[0].Image? then [p] + ReplaceImages(parts[1..], k - 1, p)
    else [parts[0]] + ReplaceImages(parts[1..], k, p)
  }

  function DropImages(parts: seq<ContentPart>, k: nat): seq<ContentPart> {
    if parts == [] then []
    else if k > 0 && parts[0].Image? then DropImages(parts[1..], k - 1)
    else [parts[0]] + DropImages(parts[1..], k)
  }

  /** One item without its k oldest images; a tool result that loses any says so once. */
  function WithoutImages(x: Item, w: Wording, k: nat): Item {
    if k == 0 then x
    else if x.User? then x.(content := ReplaceImages(x.content, k, Text(w.placeholder)))
    else if x.ToolResult? then x.(images := DropImages(x.images, k), text := WithNote(x.text, w))
    else x
  }

  /** The whole history without its n oldest images. */
  function WithoutOldest(s: seq<Item>, w: Wording, n: nat): seq<Item> {
    if s == [] then []
    else
      var k := if n < PartImages(PartsOf(s[0])) then n else PartImages(PartsOf(s[0]));
      [WithoutImages(s[0], w, k)] + WithoutOldest(s[1..], w, n - k)
  }

  lemma NoteIsContained(text: string, w: Wording)
    ensures Contains(WithNote(text, w), w.note)
    ensures WithNote(WithNote(text, w), w) == WithNote(text, w)
  {
    FoundIsLeftmost(WithNote(text, w), w.note);
    if !Contains(text, w.note) {
      assert OccursAt(text + "\n\n" + w.note, w.note, |text + "\n\n"|);
    }
  }

  lemma {:induction false} ReplaceNone(parts: seq<ContentPart>, p: ContentPart)
    ensures ReplaceImages(parts, 0, p) == parts && DropImages(parts, 0) == parts
  {
    if parts != [] {
      ReplaceNone(parts[1..], p);
    }
  }

  lemma {:induction false} ReplaceOneMore(parts: seq<ContentPart>, k: nat, p: ContentPart)
    requires k < PartImages(parts) && p.Text?
    ensures var q := ReplaceImages(parts, k, p);
            PartImages(q) == PartImages(parts) - k && q[FirstImage(q) := p] == ReplaceImages(parts, k + 1, p)
  {
    if k > 0 && parts[0].Image? {
      ReplaceOneMore(parts[1..], k - 1, p);
      ReplaceBehind(p, ReplaceImages(parts[1..], k - 1, p), p);
    } else if parts[0].Image? {
      ReplaceNone(parts, p);
      ReplaceNone(parts[1..], p);
      assert parts == [parts[0]] + parts[1..];
    } else {
      ReplaceOneMore(parts[1..], k, p);
      ReplaceBehind(parts[0], ReplaceImages(parts[1..], k, p), p);
    }
  }

  lemma ReplaceBehind(head: ContentPart, t: seq<ContentPart>, p: ContentPart)
    requires head.Text? && PartImages(t) > 0
    ensures var q := [head] + t;
            && PartImages(q) == PartImages(t)
            && q[FirstImage(q) := p] == [head] + t[FirstImage(t) := p]
  {
    var q := [head] + t;
    assert q[1..] == t && FirstImage(q) == 1 + FirstImage(t);
  }

  lemma {:induction false} DropOneMore(parts: seq<ContentPart>, k: nat)
    requires k < PartImages(parts)
    ensures var q := DropImages(parts, k);
            PartImages(q) == PartImages(parts) - k &&
              q[..FirstImage(q)] + q[FirstImage(q) + 1..] == DropImages(parts, k + 1)
  {
    if k > 0 && parts[0].Image? {
      DropOneMore(parts[1..], k - 1);
    } else if parts[0].Image? {
      ReplaceNone(parts, Text(""));
      ReplaceNone(parts[1..], Text(""));
      assert parts[..0] + parts[1..] == parts[1..];
    } else {
      DropOneMore(parts[1..], k);
      var t := DropImages(parts[1..], k);
      FirstImageBehind(parts[0], t);
    }
  }

  lemma FirstImageBehind(p: ContentPart, t: seq<ContentPart>)
    requires p.Text? && PartImages(t) > 0
    ensures var q := [p] + t;
            && PartImages(q) == PartImages(t) && FirstImage(q) == 1 + FirstImage(t)
            && q[..FirstImage(q)] + q[FirstImage(q) + 1..] == [p] + (t[..FirstImage(t)] + t[FirstImage(t) + 1..])
  {
    var q := [p] + t;
    assert q[1..] == t;
  }

  lemma {:induction false} AllReplaced(parts: seq<ContentPart>, p: ContentPart)
    requires p.Text?
    ensures PartImages(ReplaceImages(parts, PartImages(parts), p)) == 0
    ensures PartImages(DropImages(parts, PartImages(parts))) == 0
  {
    if parts != [] {
      AllReplaced(parts[1..], p);
      var t := ReplaceImages(parts[1..], PartImages(parts[1..]), p);
      assert ([p] + t)[1..] == t && ([parts[0]] + t)[1..] == t;
      var d := DropImages(parts[1..], PartImages(parts[1..]));
      assert ([parts[0]] + d)[1..] == d;
    }
  }

  lemma OneMoreFromItem(x: Item, w: Wording, k: nat)
    requires k < PartImages(PartsOf(x))
    ensures PartImages(PartsOf(WithoutImages(x, w, k))) > 0
    ensures EvictFromItem(WithoutImages(x, w, k), w) == WithoutImages(x, w, k + 1)
  {
    hide PartImages, ReplaceImages, DropImages, WithNote, FirstImage;
    EmptyHasNoImages();
    if x.User? {
      ReplaceNone(x.content, Text(w.placeholder));
      ReplaceOneMore(x.content, k, Text(w.placeholder));
    } else {
      ReplaceNone(x.images, Text(""));
      DropOneMore(x.images, k);
      NoteIsContained(x.text, w);
    }
  }

  lemma NoneLeftInItem(x: Item, w: Wording)
    ensures PartImages(PartsOf(WithoutImages(x, w, PartImages(PartsOf(x))))) == 0
  {
    hide PartImages, ReplaceImages, DropImages, WithNote;
    EmptyHasNoImages();
    AllReplaced(PartsOf(x), Text(w.placeholder));
  }

  lemma {:induction false} OneMoreOldest(s: seq<Item>, w: Wording, n: nat)
    requires n < InlineImageCount(s)
    ensures var t := WithoutOldest(s, w, n);
            InlineImageCount(t) > 0 && EvictOldest(t, w) == WithoutOldest(s, w, n + 1)
  {
    hide PartImages, WithoutImages, EvictFromItem, PartsOf;
    var m := PartImages(PartsOf(s[0]));
    var t := WithoutOldest(s, w, n);
    if n < m {
      OneMoreFromItem(s[0], w, n);
      assert t[1..] == WithoutOldest(s[1..], w, 0);
    } else {
      NoneLeftInItem(s[0], w);
      OneMoreOldest(s[1..], w, n - m);
      assert t[0] == WithoutImages(s[0], w, m) && t[1..] == WithoutOldest(s[1..], w, n - m);
    }
  }

  lemma {:induction false} WithoutNone(s: seq<Item>, w: Wording)
    ensures WithoutOldest(s, w, 0) == s
  {
    if s != [] {
      WithoutNone(s[1..], w);
    }
  }

  /** n evictions, one at a time, leave the history without its n oldest images and change nothing else. */
  lemma {:induction false} EvictionInClosedForm(s: seq<Item>, w: Wording, n: nat)
    requires n <= InlineImageCount(s)
    ensures EvictN(s, w, n) == WithoutOldest(s, w, n)
  {
    hide *;
    if n == 0 {
      WithoutNone(s, w);
      EvictNone(s, w);
    } else {
      EvictionInClosedForm(s, w, n - 1);
      OneMoreOldest(s, w, n - 1);
      EvictOneMore(s, w, n);
    }
  }

  lemma {:induction false} StillClean(parts: seq<ContentPart>, k: nat, p: ContentPart)
    requires CleanParts(parts) && p.Text?
    ensures CleanParts(ReplaceImages(parts, k, p)) && CleanParts(DropImages(parts, k))
  {
    hide HasDirtyPayload;
    if parts != [] {
      assert parts[0] in parts && forall q | q in parts[1..] :: q in parts;
      var fewer := if k > 0 && parts[0].Image? then k - 1 else k;
      StillClean(parts[1..], fewer, p);
    }
  }

  lemma {:induction false} EvictionStaysClean(s: seq<Item>, w: Wording, n: nat)
    requires forall i | 0 <= i < |s| :: CleanParts(PartsOf(s[i]))
    ensures forall i | 0 <= i < |WithoutOldest(s, w, n)| :: CleanParts(PartsOf(WithoutOldest(s, w, n)[i]))
  {
    hide PartImages, CleanParts, WithNote;
    if s != [] {
      var k := if n < PartImages(PartsOf(s[0])) then n else PartImages(PartsOf(s[0]));
      EvictionStaysClean(s[1..], w, n - k);
      StillClean(PartsOf(s[0]), k, Text(w.placeholder));
    }
  }

  /** With clean payloads the bound is one on the real serialized length. */
  lemma EvictionBoundsSerializedLength(frame: Item -> nat, s: seq<Item>, w: Wording, trigger: nat, target: nat)
    requires MeasuredBytes(frame, s) >= trigger
    requires forall i | 0 <= i < |s| :: CleanParts(PartsOf(s[i]))
    ensures var out := ApplyImageBudget(frame, s, w, trigger, target);
            && SerializedBytes(frame, out.items) == out.outcome.bodyBytesAfter
            && (InlineImageCount(out.items) == 0
                || SerializedBytes(frame, out.items) <= target + Shortfall(s, w, out.outcome.evicted))
  {
    hide *;
    ApplyEvicts(frame, s, w, trigger, target);
    var out := ApplyImageBudget(frame, s, w, trigger, target);
    EvictionReachesTarget(frame, s, w, trigger, target);
    EvictionInClosedForm(s, w, out.outcome.evicted);
    EvictionStaysClean(s, w, out.outcome.evicted);
    BodyMeasuredExactly(frame, out.items);
    MeasuredInPlace(frame, out.items);
    MeasuredIsBody(frame, out.items);
  }

  lemma ApplyEvicts(frame: Item -> nat, s: seq<Item>, w: Wording, trigger: nat, target: nat)
    ensures var out := ApplyImageBudget(frame, s, w, trigger, target);
            && out.outcome.evicted <= InlineImageCount(s)
            && out.items == EvictN(s, w, out.outcome.evicted)
            && out.outcome.bodyBytesAfter == MeasuredBytes(frame, out.items)
  {
  }

  // ---------------------------------------------------------------- the loops, in place

  method BlankImageUrls(parts: seq<ContentPart>) returns (blanked: seq<ContentPart>, urlBytes: nat)
    ensures blanked == BlankedParts(parts) && urlBytes == UrlBytesOfParts(parts)
  {
    blanked, urlBytes := [], 0;
    assert parts[0..] == parts;
    for i := 0 to |parts|
      invariant blanked + BlankedParts(parts[i..]) == BlankedParts(parts)
      invariant urlBytes + UrlBytesOfParts(parts[i..]) == UrlBytesOfParts(parts)
    {
      assert parts[i..][1..] == parts[i + 1..];
      if parts[i].Image? {
        urlBytes := urlBytes + EncodedUrlBytes(parts[i].url);
      }
      blanked := blanked + [BlankedPart(parts[i])];
    }
  }

  method BlankItem(x: Item) returns (blanked: Item, urlBytes: nat)
    ensures blanked == BlankedItem(x) && urlBytes == UrlBytesOfParts(PartsOf(x))
  {
    hide BlankedParts;
    blanked, urlBytes := x, 0;
    if x.User? {
      var content, n := BlankImageUrls(x.content);
      blanked, urlBytes := x.(content := content), n;
    } else if x.ToolResult? {
      var images, n := BlankImageUrls(x.images);
      blanked, urlBytes := x.(images := images), n;
    }
  }

  /** Blanks a copy of the history, serializes it, and adds the URLs' bytes back. */
  method MeasureConversation(frame: Item -> nat, s: seq<Item>) returns (bytes: nat)
    ensures bytes == BodyBytes(frame, EncodedUrlBytes, s)
  {
    hide *;
    var blanked: seq<Item>, urlBytes := [], 0;
    assert s[0..] == s;
    for i := 0 to |s|
      invariant blanked + Blanked(s[i..]) == Blanked(s)
      invariant urlBytes + UrlBytes(s[i..]) == UrlBytes(s)
    {
      BlankedStep(s[i..]);
      assert s[i..][1..] == s[i + 1..] && s[i..][0] == s[i];
      var x, n := BlankItem(s[i]);
      assert blanked + ([x] + Blanked(s[i + 1..])) == (blanked + [x]) + Blanked(s[i + 1..]);
      blanked, urlBytes := blanked + [x], urlBytes + n;
    }
    NothingBlanked();
    assert s[|s|..] == [];
    assert blanked == Blanked(s) && urlBytes == UrlBytes(s);
    MeasuredInPlace(frame, s);
    bytes := SerializedBytes(frame, blanked) + urlBytes;
    MeasuredAsTold(frame, s);
  }

  lemma BlankedStep(s: seq<Item>)
    requires s != []
    ensures Blanked(s) == [BlankedItem(s[0])] + Blanked(s[1..])
    ensures UrlBytes(s) == UrlBytesOfParts(PartsOf(s[0])) + UrlBytes(s[1..])
  {
  }

  lemma NothingBlanked()
    ensures Blanked([]) == [] && UrlBytes([]) == 0
  {
  }

  lemma MeasuredAsTold(frame: Item -> nat, s: seq<Item>)
    ensures ConversationBodyBytes(frame, s) == SerializedBytes(frame, Blanked(s)) + UrlBytes(s)
  {
    hide SerializedBytes, Blanked, UrlBytes;
  }

  method FindImagesInUser(parts: seq<ContentPart>, item: nat) returns (found: seq<FoundImage>)
    ensures found == FindInUser(parts, item, 0)
  {
    found := [];
    assert parts[0..] == parts;
    for part := 0 to |parts|
      invariant found + FindInUser(parts[part..], item, part) == FindInUser(parts, item, 0)
    {
      assert parts[part..][1..] == parts[part + 1..];
      if parts[part].Image? {
        found := found + [FoundImage(UserSlot(item, part), PartBytes(EncodedUrlBytes, parts[part]))];
      }
    }
  }

  method FindImagesInToolResult(parts: seq<ContentPart>, item: nat) returns (found: seq<FoundImage>)
    ensures found == FindInToolResult(parts, item)
  {
    found := [];
    assert parts[0..] == parts;
    for part := 0 to |parts|
      invariant found + FindInToolResult(parts[part..], item) == FindInToolResult(parts, item)
    {
      assert parts[part..][1..] == parts[part + 1..];
      if parts[part].Image? {
        found := found + [FoundImage(InToolResult(item), PartBytes(EncodedUrlBytes, parts[part]))];
      }
    }
  }

  method FindAllImages(conversation: array<Item>) returns (found: seq<FoundImage>)
    ensures found == FindImages(conversation[..], 0)
  {
    hide FindInUser, FindInToolResult;
    found := [];
    assert conversation[0..] == conversation[..];
    for item := 0 to conversation.Length
      invariant found + FindImages(conversation[item..], item) == FindImages(conversation[..], 0)
    {
      FindImagesStep(conversation[item..], item);
      assert conversation[item..][1..] == conversation[item + 1..];
      var more: seq<FoundImage> := [];
      if conversation[item].User? {
        more := FindImagesInUser(conversation[item].content, item);
      } else if conversation[item].ToolResult? {
        more := FindImagesInToolResult(conversation[item].images, item);
      }
      found := found + more;
    }
  }

  method PositionOfImage(parts: seq<ContentPart>) returns (i: nat)
    requires PartImages(parts) > 0
    ensures i == FirstImage(parts)
  {
    i := 0;
    assert parts[0..] == parts;
    while !parts[i].Image?
      invariant i <= FirstImage(parts)
      decreases |parts| - i
    {
      i := i + 1;
    }
  }

  /** Evicts in place, oldest first, until the estimate is within the target. */
  method EvictImagesToBudget(conversation: array<Item>, w: Wording, current: nat, target: nat) returns (evicted: nat)
    modifies conversation
    ensures evicted == EvictCount(old(conversation[..]), w, current, target, 0)
    ensures conversation[..] == EvictN(old(conversation[..]), w, evicted)
  {
    hide *;
    ghost var s := conversation[..];
    var found := FindAllImages(conversation);
    var running := current;
    evicted := 0;
    EvictsAnOldestFirstPrefix(s, w, 0);
    StartOfRun(s, w, current);
    while evicted < |found|
      invariant evicted <= |found| == InlineImageCount(s)
      invariant conversation[..] == EvictN(s, w, evicted)
      invariant running == Running(s, w, current, evicted)
      invariant EvictCount(s, w, current, target, 0) == EvictCount(s, w, current, target, evicted)
    {
      EvictCountStep(s, w, current, target, evicted);
      if running <= target {
        break;
      }
      ghost var before := conversation[..];
      EvictsAnOldestFirstPrefix(s, w, evicted);
      NextOfRun(s, w, current, evicted + 1);
      EvictOneMore(s, w, evicted + 1);
      HeadOfFound(before, w, found, evicted, running);
      match found[evicted].location {
        case UserSlot(item, part) =>
          var user := conversation[item];
          conversation[item] := user.(content := user.content[part := Text(w.placeholder)]);
          running := Minus(running, Minus(found[evicted].bytes, PlaceholderBytes(w)));
        case InToolResult(item) =>
          var result := conversation[item];
          var i := PositionOfImage(result.images);
          var images := result.images[..i] + result.images[i + 1..];
          var text := WithNote(result.text, w);
          conversation[item] := result.(images := images, text := text);
          running := Minus(running, found[evicted].bytes + if images != [] then 1 else 0) + NoteCost(result, w);
      }
      evicted := evicted + 1;
    }
    if evicted == |found| {
      EvictCountAtEnd(s, w, current, target);
    }
  }

  lemma EvictCountStep(s: seq<Item>, w: Wording, current: nat, target: nat, n: nat)
    requires n < InlineImageCount(s)
    ensures EvictCount(s, w, current, target, n) ==
            if Running(s, w, current, n) <= target then n else EvictCount(s, w, current, target, n + 1)
  {
  }

  lemma EvictCountAtEnd(s: seq<Item>, w: Wording, current: nat, target: nat)
    ensures EvictCount(s, w, current, target, InlineImageCount(s)) == InlineImageCount(s)
  {
  }

  /** The next entry of the list found up front describes the oldest image still there. */
  lemma HeadOfFound(s: seq<Item>, w: Wording, found: seq<FoundImage>, k: nat, running: nat)
    requires k < |found| && FindImages(s, 0) == found[k..] && InlineImageCount(s) > 0
    ensures var item := OldestItem(s);
            var x := s[item];
            && found[k].bytes == OldestBytes(x)
            && EvictOldest(s, w) == s[item := EvictFromItem(x, w)]
            && (x.User? ==>
                  && found[k].location == UserSlot(item, FirstImage(x.content))
                  && EvictFromItem(x, w) == x.(content := x.content[FirstImage(x.content) := Text(w.placeholder)])
                  && NextRunning(running, x, w) == Minus(running, Minus(found[k].bytes, PlaceholderBytes(w))))
            && (!x.User? ==>
                  && x.ToolResult? && PartImages(x.images) > 0 && found[k].location == InToolResult(item)
                  && var left := x.images[..FirstImage(x.images)] + x.images[FirstImage(x.images) + 1..];
                  && EvictFromItem(x, w) == x.(images := left, text := WithNote(x.text, w))
                  && NextRunning(running, x, w) ==
                     Minus(running, found[k].bytes + if left != [] then 1 else 0) + NoteCost(x, w))
  {
    hide FindImages, PartImages, FirstImage, InlineImageCount, EncodedUrlBytes, PartBytes;
    EmptyHasNoImages();
    FindImagesAfter(s, w, 0);
    EvictOldestInPlace(s, w);
    assert found[k..][0] == found[k];
  }

  /** The whole pass: measure, decide, evict, and measure again only if something went. */
  method ApplyImageBudgetWithLimits(frame: Item -> nat, items: array<Item>, w: Wording, trigger: nat, target: nat)
    returns (outcome: ImageBudgetOutcome)
    modifies items
    ensures BudgetedConversation(items[..], outcome) == ApplyImageBudget(frame, old(items[..]), w, trigger, target)
  {
    hide MeasuredBytes, InlineImageCount, EvictCount, EvictN;
    ghost var s := items[..];
    MeasuredIsBody(frame, s);
    StartOfRun(s, w, 0);
    var bodyBytes := MeasureConversation(frame, items[..]);
    var inlineImages := InlineImageCount(items[..]);
    var evicted := 0;
    if bodyBytes >= trigger && bodyBytes > target {
      evicted := EvictImagesToBudget(items, w, bodyBytes, target);
    }
    var bodyBytesAfter := bodyBytes;
    if evicted != 0 {
      MeasuredIsBody(frame, items[..]);
      bodyBytesAfter := MeasureConversation(frame, items[..]);
    }
    outcome := ImageBudgetOutcome(bodyBytes, bodyBytesAfter, inlineImages, bodyBytes >= trigger, evicted);
  }

  lemma MeasuredIsBody(frame: Item -> nat, s: seq<Item>)
    ensures MeasuredBytes(frame, s) == BodyBytes(frame, EncodedUrlBytes, s)
  {
  }
}
