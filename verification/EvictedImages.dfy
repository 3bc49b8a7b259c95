/**
 What the image budget leaves, slot by slot, and what its report says: the places are named by counting the images in
 front of them, not by running the eviction.
 */
module EvictedImages {
  import opened Arithmetic
  import opened Conversation
  import opened ImageBudget
  import opened JsonText
  import opened Options
  import opened Text

  // ---------------------------------------------------------------- places

  /** How many images stand in front of item `i`. */
  function ImagesBefore(s: seq<Item>, i: nat): nat
    requires i <= |s|
  {
    if i == 0 then 0 else PartImages(PartsOf(s[0])) + ImagesBefore(s[1..], i - 1)
  }

  /** How many of the n oldest images stand in item `i`. */
  function TakenFrom(s: seq<Item>, n: nat, i: nat): nat
    requires i < |s|
  {
    var (before, own) := (ImagesBefore(s, i), PartImages(PartsOf(s[i])));
    if n <= before then 0 else if n - before < own then n - before else own
  }

  lemma {:induction false} ItemWithoutOldest(s: seq<Item>, w: Wording, n: nat, i: nat)
    requires i < |s|
    ensures |WithoutOldest(s, w, n)| == |s|
    ensures WithoutOldest(s, w, n)[i] == WithoutImages(s[i], w, TakenFrom(s, n, i))
  {
    hide PartImages, WithoutImages;
    var own := PartImages(PartsOf(s[0]));
    var k := if n < own then n else own;
    if i > 0 {
      ItemWithoutOldest(s[1..], w, n - k, i - 1);
    } else {
      OldestLength(s[1..], w, n - k);
    }
    if i > 0 && n <= own && ImagesBefore(s[1..], i - 1) == 0 {
      assert n - k == 0;
    }
  }

  lemma {:induction false} OldestLength(s: seq<Item>, w: Wording, n: nat)
    ensures |WithoutOldest(s, w, n)| == |s|
  {
    hide PartImages, WithoutImages;
    if s != [] {
      var own := PartImages(PartsOf(s[0]));
      OldestLength(s[1..], w, n - if n < own then n else own);
    }
  }

  // ---------------------------------------------------------------- slots of a user item

  lemma {:induction false} ReplacedSlot(parts: seq<ContentPart>, k: nat, p: ContentPart, j: nat)
    requires j < |parts|
    ensures |ReplaceImages(parts, k, p)| == |parts|
    ensures ReplaceImages(parts, k, p)[j] ==
            if parts[j].Image? && PartImages(parts[..j]) < k then p else parts[j]
  {
    var rest := if k > 0 && parts[0].Image? then k - 1 else k;
    if j > 0 {
      assert parts[..j][1..] == parts[1..][..j - 1];
      ReplacedSlot(parts[1..], rest, p, j - 1);
    } else {
      ReplacedLength(parts[1..], rest, p);
    }
  }

  lemma {:induction false} ReplacedLength(parts: seq<ContentPart>, k: nat, p: ContentPart)
    ensures |ReplaceImages(parts, k, p)| == |parts|
  {
    if parts != [] {
      ReplacedLength(parts[1..], if k > 0 && parts[0].Image? then k - 1 else k, p);
    }
  }

  lemma {:induction false} ImagesInFront(parts: seq<ContentPart>, j: nat)
    requires j < |parts|
    ensures PartImages(parts[..j]) + (if parts[j].Image? then 1 else 0) <= PartImages(parts)
  {
    if j > 0 {
      assert parts[..j][1..] == parts[1..][..j - 1];
      ImagesInFront(parts[1..], j - 1);
    }
  }

  /**
   After n evictions the slots of a user item are what they were, but that each image with fewer than n images in front
   of it in the whole history is the placeholder.
   */
  lemma EvictedUserSlot(s: seq<Item>, w: Wording, n: nat, i: nat, j: nat)
    requires n <= InlineImageCount(s) && i < |s| && s[i].User? && j < |s[i].content|
    ensures var after := EvictN(s, w, n)[i];
            && after.User? && after.reason == s[i].reason && |after.content| == |s[i].content|
            && after.content[j] ==
               if s[i].content[j].Image? && ImagesBefore(s, i) + PartImages(s[i].content[..j]) < n
               then Text(w.placeholder) else s[i].content[j]
  {
    hide EvictN, InlineImageCount, ImagesBefore, PartImages;
    EvictionInClosedForm(s, w, n);
    ItemWithoutOldest(s, w, n, i);
    ReplacedSlot(s[i].content, TakenFrom(s, n, i), Text(w.placeholder), j);
    ImagesInFront(s[i].content, j);
  }

  // ---------------------------------------------------------------- tool results

  function TextParts(parts: seq<ContentPart>): seq<ContentPart> {
    if parts == [] then []
    else if parts[0].Text? then [parts[0]] + TextParts(parts[1..])
    else TextParts(parts[1..])
  }

  /** The first k images are gone: a cut stands behind them, and in front of it only the texts are left. */
  ghost predicate LostImages(before: seq<ContentPart>, after: seq<ContentPart>, k: nat) {
    exists cut: nat :: cut <= |before| && IsCutAt(before, after, k, cut)
  }

  ghost predicate IsCutAt(before: seq<ContentPart>, after: seq<ContentPart>, k: nat, cut: nat)
    requires cut <= |before|
  {
    PartImages(before[..cut]) == k && after == TextParts(before[..cut]) + before[cut..]
  }

  lemma {:induction false} ImagesAreDropped(parts: seq<ContentPart>, k: nat)
    requires k <= PartImages(parts)
    ensures LostImages(parts, DropImages(parts, k), k)
  {
    if k == 0 {
      ReplaceNone(parts, Text(""));
      assert parts[..0] == [] && parts[0..] == parts;
      assert [] + parts == parts;
      assert IsCutAt(parts, parts, 0, 0);
    } else {
      var rest := if parts[0].Image? then k - 1 else k;
      ImagesAreDropped(parts[1..], rest);
      var after := DropImages(parts[1..], rest);
      var cut: nat :| cut <= |parts[1..]| && IsCutAt(parts[1..], after, rest, cut);
      CutOneMore(parts, cut);
      if parts[0].Text? {
        assert [parts[0]] + (TextParts(parts[1..][..cut]) + parts[1..][cut..])
            == ([parts[0]] + TextParts(parts[1..][..cut])) + parts[1..][cut..];
      }
      assert IsCutAt(parts, DropImages(parts, k), k, cut + 1);
    }
  }

  lemma CutOneMore(parts: seq<ContentPart>, cut: nat)
    requires cut < |parts|
    ensures parts[cut + 1..] == parts[1..][cut..]
    ensures PartImages(parts[..cut + 1]) ==
            (if parts[0].Image? then 1 else 0) + PartImages(parts[1..][..cut])
    ensures TextParts(parts[..cut + 1]) ==
            if parts[0].Text? then [parts[0]] + TextParts(parts[1..][..cut]) else TextParts(parts[1..][..cut])
  {
    assert parts[..cut + 1][1..] == parts[1..][..cut];
  }

  /** The text as it was, if it says so already; else the note stands below it. */
  ghost predicate SaysSo(before: string, after: string, note: string) {
    if Contains(before, note) then after == before else after == before + "\n\n" + note
  }

  /**
   After n evictions a tool result that none of them reached is unchanged; any other kept its id, lost its first images
   and no other part, and says so in its text.
   */
  lemma EvictedToolResult(s: seq<Item>, w: Wording, n: nat, i: nat)
    requires n <= InlineImageCount(s) && i < |s| && s[i].ToolResult?
    ensures var (after, own) := (EvictN(s, w, n)[i], PartImages(s[i].images));
            if n <= ImagesBefore(s, i) || own == 0 then after == s[i]
            else
              && after.ToolResult? && after.callId == s[i].callId
              && SaysSo(s[i].text, after.text, w.note)
              && var mine := n - ImagesBefore(s, i);
                 LostImages(s[i].images, after.images, if mine < own then mine else own)
  {
    hide EvictN, InlineImageCount, ImagesBefore, PartImages, Contains, LostImages, DropImages;
    EvictionInClosedForm(s, w, n);
    ItemWithoutOldest(s, w, n, i);
    ImagesAreDropped(s[i].images, TakenFrom(s, n, i));
  }

  /** Items of the other kinds are not touched. */
  lemma OtherItemsStay(s: seq<Item>, w: Wording, n: nat, i: nat)
    requires n <= InlineImageCount(s) && i < |s| && !s[i].User? && !s[i].ToolResult?
    ensures EvictN(s, w, n)[i] == s[i]
  {
    hide EvictN, InlineImageCount, ImagesBefore, PartImages;
    EvictionInClosedForm(s, w, n);
    ItemWithoutOldest(s, w, n, i);
  }

  // ---------------------------------------------------------------- the report

  /**
   A pass touches the history exactly if the body has reached the trigger, is above the target, and holds an image. What
   it reports are the bytes before and after, the images there were, whether the trigger was reached, and how many went.
   */
  lemma PassIsReported(frame: Item -> nat, s: seq<Item>, w: Wording, trigger: nat, target: nat)
    ensures var (out, body) := (ApplyImageBudget(frame, s, w, trigger, target), ConversationBodyBytes(frame, s));
            && out.outcome.bodyBytes == body
            && out.outcome.bodyBytesAfter == ConversationBodyBytes(frame, out.items)
            && out.outcome.inlineImages == |FindImages(s, 0)|
            && out.outcome.evicted == |FindImages(s, 0)| - |FindImages(out.items, 0)|
            && (out.outcome.needsImageCompaction <==> body >= trigger)
            && (out.outcome.evicted > 0 <==> body >= trigger && body > target && FindImages(s, 0) != [])
            && (out.items == s <==> out.outcome.evicted == 0)
  {
    hide MeasuredBytes, InlineImageCount, EvictN, EvictCount, FindImages, ConversationBodyBytes, Running;
    var out := ApplyImageBudget(frame, s, w, trigger, target);
    MeasuredIsBody(frame, s);
    MeasuredIsBody(frame, out.items);
    MeasuredInPlace(frame, s);
    MeasuredInPlace(frame, out.items);
    FindImagesCounts(s, 0);
    FindImagesCounts(out.items, 0);
    ApplyEvicts(frame, s, w, trigger, target);
    EvictNone(s, w);
    StartOfRun(s, w, MeasuredBytes(frame, s));
    EvictCountIsFirst(s, w, MeasuredBytes(frame, s), target, 0);
  }

  // ---------------------------------------------------------------- measuring a URL

  ghost predicate IsBase64Header(header: string) {
    exists media: string :: header == "data:" + media + ";base64"
  }

  /** What stands behind the first comma of a base64 data URI counts by its bytes; everything else as JSON writes it. */
  lemma UrlIsMeasured(header: string, payload: string)
    requires ',' !in header
    ensures EncodedUrlBytes(header) == EscapedBytes(header)
    ensures EncodedUrlBytes(header + "," + payload) ==
            EscapedBytes(header) + 1 + if IsBase64Header(header) then Utf8Bytes(payload) else EscapedBytes(payload)
  {
    hide EscapedBytes, Utf8Bytes, Find, IsBase64DataHeader;
    var url := header + "," + payload;
    NoComma(header);
    FindAfter(header, ",", payload);
    assert url[..|header|] == header && url[|header| + 1..] == payload;
    assert url[|header|..|header| + 1] == ",";
    EscapedAroundComma(url, |header|);
    HeaderIs(header);
  }

  lemma NoComma(header: string)
    requires ',' !in header
    ensures Find(header, ",") == None
  {
    hide Find;
    FoundIsLeftmost(header, ",");
    forall i: nat ensures !OccursAt(header, ",", i) {
      if i + 1 <= |header| {
        assert header[i..i + 1][0] == header[i];
      }
    }
  }

  lemma HeaderIs(header: string)
    ensures IsBase64DataHeader(header) <==> IsBase64Header(header)
  {
    if IsBase64DataHeader(header) {
      var end := |header| - 7;
      assert header[end..][0] == ';' && header[end] == ';';
      assert end >= 5 by {
        assert forall k | 0 <= k < 5 :: header[k] == "data:"[k];
      }
      assert header == "data:" + header[5..end] + ";base64";
    }
    if IsBase64Header(header) {
      var media :| header == "data:" + media + ";base64";
      assert header[|header| - 7..] == ";base64";
    }
  }
}
