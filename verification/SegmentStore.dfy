/** Segment files of a compacted history: their names, and how many turns fit one. */
module SegmentStore {
  import opened Arithmetic
  import opened Options
  import opened Text

  const SEGMENT_PREFIX := "segment_"
  const SEGMENT_SUFFIX := ".md"
  const SEGMENT_MAX_BYTES: nat := 524288
  const PER_TURN_OVERHEAD_BYTES: nat := 64
  const U64_BOUND: nat := 0x1_0000_0000_0000_0000

  // ---------------------------------------------------------------- names

  function SegmentLabel(index: nat): string {
    var digits := Decimal(index);
    (if |digits| == 1 then "00" else if |digits| == 2 then "0" else "") + digits
  }

  function SegmentFilename(index: nat): string {
    SEGMENT_PREFIX + SegmentLabel(index) + SEGMENT_SUFFIX
  }

  predicate AreDigits(s: string) {
    s != "" && forall k | 0 <= k < |s| :: '0' <= s[k] <= '9'
  }

  function ValueOf(s: string): nat
    requires forall k | 0 <= k < |s| :: '0' <= s[k] <= '9'
  {
    if s == "" then 0 else 10 * ValueOf(s[..|s| - 1]) + (s[|s| - 1] as int - '0' as int)
  }

  /** An unsigned 64-bit number: an optional plus sign, at least one digit, no overflow. */
  function ParseU64(s: string): Option<nat> {
    var digits := if s != "" && s[0] == '+' then s[1..] else s;
    if AreDigits(digits) && ValueOf(digits) < U64_BOUND then Some(ValueOf(digits)) else None
  }

  function ParseSegmentIndex(filename: string): Option<nat> {
    if !(SEGMENT_PREFIX <= filename) then None
    else
      var rest := filename[|SEGMENT_PREFIX|..];
      if !EndsWith(rest, SEGMENT_SUFFIX) then None else ParseU64(rest[..|rest| - |SEGMENT_SUFFIX|])
  }

  lemma {:induction false} DecimalValue(n: nat)
    ensures ValueOf(Decimal(n)) == n
    decreases n
  {
    if n >= 10 {
      DecimalValue(n / 10);
      assert Decimal(n)[..|Decimal(n)| - 1] == Decimal(n / 10);
    }
  }

  lemma {:induction false} LeadingZero(s: string)
    requires forall k | 0 <= k < |s| :: '0' <= s[k] <= '9'
    ensures ValueOf("0" + s) == ValueOf(s)
  {
    if s == "" {
      assert "0" + s == "0" && "0"[..0] == "";
    } else {
      assert ("0" + s)[..|s|] == "0" + s[..|s| - 1];
      LeadingZero(s[..|s| - 1]);
    }
  }

  lemma LabelValue(index: nat)
    ensures AreDigits(SegmentLabel(index)) && ValueOf(SegmentLabel(index)) == index
  {
    hide ValueOf, Decimal;
    var digits := Decimal(index);
    DecimalValue(index);
    if |digits| == 1 {
      assert "00" + digits == "0" + ("0" + digits);
      LeadingZero(digits);
      LeadingZero("0" + digits);
    } else if |digits| == 2 {
      LeadingZero(digits);
    } else {
      assert "" + digits == digits;
    }
  }

  /** Below a thousand a name has three digits, most significant first. */
  lemma NameHasThreeDigits(a: nat, b: nat, c: nat)
    requires a < 10 && b < 10 && c < 10
    ensures SegmentFilename(100 * a + 10 * b + c) == "segment_" + [Digit(a), Digit(b), Digit(c)] + ".md"
  {
    var n := 100 * a + 10 * b + c;
    assert n % 10 == c && n / 10 == 10 * a + b && n / 10 % 10 == b && n / 10 / 10 == a;
    if a > 0 {
      assert Decimal(n / 10 / 10) == [Digit(a)] && Decimal(n / 10) == [Digit(a)] + [Digit(b)];
      assert Decimal(n) == [Digit(a)] + [Digit(b)] + [Digit(c)];
    } else if b > 0 {
      assert Decimal(n) == [Digit(b)] + [Digit(c)] && Digit(a) == '0';
    } else {
      assert Decimal(n) == [Digit(c)] && Digit(a) == Digit(b) == '0';
    }
    assert SegmentLabel(n) == [Digit(a), Digit(b), Digit(c)];
  }

  /** Each 64-bit index is read back from its file name. */
  lemma NameRoundTrip(index: nat)
    requires index < U64_BOUND
    ensures ParseSegmentIndex(SegmentFilename(index)) == Some(index)
  {
    hide ValueOf, Decimal, SegmentLabel;
    var digits := SegmentLabel(index);
    LabelValue(index);
    var name := SegmentFilename(index);
    assert name[|SEGMENT_PREFIX|..] == digits + SEGMENT_SUFFIX;
    assert name[..|SEGMENT_PREFIX|] == SEGMENT_PREFIX;
    assert (digits + SEGMENT_SUFFIX)[..|digits|] == digits;
  }

  // ---------------------------------------------------------------- turns within the budget

  const NOTICE_LIMIT := "\n\n[... TRUNCATED at "
  const NOTICE_OMITTED := " bytes, "
  const NOTICE_END := " turns omitted ...]\n"
  const LIMIT_MARK := "{limit}"
  const OMITTED_MARK := "{omitted}"

  function TruncationNotice(limit: string, omitted: string): string {
    NOTICE_LIMIT + limit + NOTICE_OMITTED + omitted + NOTICE_END
  }

  const NOTICE_BYTES: nat := |NOTICE_LIMIT| + |LIMIT_MARK| + |NOTICE_OMITTED| + |OMITTED_MARK| + |NOTICE_END|

  function Budget(preamble: string): nat {
    Minus(SEGMENT_MAX_BYTES, Utf8Bytes(preamble) + NOTICE_BYTES + PER_TURN_OVERHEAD_BYTES)
  }

  function BlockBytes(blocks: seq<string>): nat {
    if blocks == [] then 0 else Utf8Bytes(blocks[0]) + BlockBytes(blocks[1..])
  }

  /** How many leading blocks fit. */
  function KeptCount(blocks: seq<string>, budget: nat): (k: nat)
    ensures k <= |blocks|
  {
    if blocks == [] || Utf8Bytes(blocks[0]) > budget then 0
    else 1 + KeptCount(blocks[1..], budget - Utf8Bytes(blocks[0]))
  }

  function JoinBlocks(blocks: seq<string>): string {
    if blocks == [] then ""
    else if |blocks| == 1 then blocks[0]
    else blocks[0] + "\n" + JoinBlocks(blocks[1..])
  }

  /** The document of one segment from its preamble and its rendered turns. */
  function Rendered(preamble: string, blocks: seq<string>): string {
    var kept := KeptCount(blocks, Budget(preamble));
    preamble + JoinBlocks(blocks[..kept]) +
    if kept == |blocks| then ""
    else TruncationNotice(Decimal(SEGMENT_MAX_BYTES), Decimal(|blocks| - kept))
  }

  /** The kept turns fit the budget and one more would not: a maximal prefix of whole turns. */
  lemma {:induction false} KeptIsMaximal(blocks: seq<string>, budget: nat)
    ensures var kept := KeptCount(blocks, budget);
            && BlockBytes(blocks[..kept]) <= budget
            && forall k | kept < k <= |blocks| :: BlockBytes(blocks[..k]) > budget
  {
    hide Utf8Bytes;
    if blocks != [] {
      var first := Utf8Bytes(blocks[0]);
      forall k | 0 < k <= |blocks| ensures BlockBytes(blocks[..k]) == first + BlockBytes(blocks[1..][..k - 1]) {
        assert blocks[..k][1..] == blocks[1..][..k - 1];
      }
      if first <= budget {
        KeptIsMaximal(blocks[1..], budget - first);
      }
      assert blocks[..0] == [];
    }
  }

  lemma {:induction false} JoinedBytes(blocks: seq<string>)
    ensures Utf8Bytes(JoinBlocks(blocks)) == BlockBytes(blocks) + if blocks == [] then 0 else |blocks| - 1
  {
    hide Utf8Bytes;
    if blocks == [] {
      SmallTexts();
    } else if |blocks| == 1 {
      assert blocks[1..] == [];
    } else {
      JoinedBytes(blocks[1..]);
      Utf8Concat(blocks[0] + "\n", JoinBlocks(blocks[1..]));
      Utf8Concat(blocks[0], "\n");
      SmallTexts();
    }
  }

  lemma SmallTexts()
    ensures Utf8Bytes("") == 0 && Utf8Bytes("\n") == 1
  {
  }

  lemma NoticePartsAreAscii()
    ensures IsAscii(NOTICE_LIMIT) && IsAscii(NOTICE_OMITTED) && IsAscii(NOTICE_END)
  {
  }

  lemma DigitsAreAscii(n: nat)
    ensures Utf8Bytes(Decimal(n)) == |Decimal(n)|
  {
    hide Decimal, Utf8Bytes;
    AsciiBytes(Decimal(n));
  }

  lemma NoticeLength(omitted: nat)
    ensures Utf8Bytes(TruncationNotice(Decimal(SEGMENT_MAX_BYTES), Decimal(omitted))) ==
              NOTICE_BYTES - 10 + |Decimal(omitted)|
  {
    hide Decimal, Utf8Bytes, IsAscii;
    var a, b := Decimal(SEGMENT_MAX_BYTES), Decimal(omitted);
    NoticePartsAreAscii();
    AsciiBytes(NOTICE_LIMIT);
    AsciiBytes(NOTICE_OMITTED);
    AsciiBytes(NOTICE_END);
    DigitsAreAscii(SEGMENT_MAX_BYTES);
    DigitsAreAscii(omitted);
    CapHasSixDigits();
    Utf8Concat(NOTICE_LIMIT + a + NOTICE_OMITTED + b, NOTICE_END);
    Utf8Concat(NOTICE_LIMIT + a + NOTICE_OMITTED, b);
    Utf8Concat(NOTICE_LIMIT + a, NOTICE_OMITTED);
    Utf8Concat(NOTICE_LIMIT, a);
  }

  lemma CapHasSixDigits()
    ensures |Decimal(SEGMENT_MAX_BYTES)| == 6
  {
    hide Decimal;
    DecimalLength(SEGMENT_MAX_BYTES, 6);
    DecimalLength(SEGMENT_MAX_BYTES, 5);
    Powers();
  }

  lemma Powers()
    ensures Pow10(5) == 100_000 && Pow10(6) == 1_000_000
  {
    assert Pow10(1) == 10 && Pow10(2) == 100 && Pow10(3) == 1000 && Pow10(4) == 10_000;
  }

  /** Turns are joined by one line break between neighbours. */
  lemma {:induction false} JoinedInOrder(front: seq<string>, back: seq<string>)
    requires front != [] && back != []
    ensures JoinBlocks(front + back) == JoinBlocks(front) + "\n" + JoinBlocks(back)
    ensures forall block :: JoinBlocks([block]) == block
  {
    var both := front + back;
    if |front| == 1 {
      assert both[1..] == back;
    } else {
      assert both[1..] == front[1..] + back;
      JoinedInOrder(front[1..], back);
    }
  }

  /**
   A document is its preamble and its turns. If not all turns fit, it is the preamble, the turns that fit, and a notice
   that names the cap and counts the turns left out.
   */
  lemma WhatIsWritten(preamble: string, blocks: seq<string>, kept: nat)
    requires kept == KeptCount(blocks, Budget(preamble))
    ensures kept == |blocks| ==> Rendered(preamble, blocks) == preamble + JoinBlocks(blocks)
    ensures kept < |blocks| ==>
              Rendered(preamble, blocks) ==
              preamble + JoinBlocks(blocks[..kept]) +
              "\n\n[... TRUNCATED at 524288 bytes, " + Decimal(|blocks| - kept) + " turns omitted ...]\n"
    ensures ValueOf(Decimal(|blocks| - kept)) == |blocks| - kept
  {
    hide KeptCount, JoinBlocks, ValueOf, Decimal, TruncationNotice, Budget;
    DecimalValue(|blocks| - kept);
    if kept == |blocks| {
      assert blocks[..kept] == blocks;
      assert preamble + JoinBlocks(blocks) + "" == preamble + JoinBlocks(blocks);
    } else {
      NoticeReads(preamble + JoinBlocks(blocks[..kept]), Decimal(|blocks| - kept));
    }
  }

  lemma NoticeReads(front: string, n: string)
    ensures front + TruncationNotice(Decimal(SEGMENT_MAX_BYTES), n) ==
            front + "\n\n[... TRUNCATED at 524288 bytes, " + n + " turns omitted ...]\n"
  {
    CapInDigits();
    hide Decimal;
    NoticeOpens();
    var opening := NOTICE_LIMIT + "524288" + NOTICE_OMITTED;
    assert front + (opening + n + NOTICE_END) == front + opening + n + NOTICE_END;
  }

  lemma NoticeOpens()
    ensures NOTICE_LIMIT + "524288" + NOTICE_OMITTED == "\n\n[... TRUNCATED at 524288 bytes, "
  {
  }

  lemma CapInDigits()
    ensures Decimal(SEGMENT_MAX_BYTES) == "524288"
  {
    assert Decimal(5) == "5" && Decimal(52) == "52" && Decimal(524) == "524";
    assert Decimal(5242) == "5242" && Decimal(52428) == "52428";
  }

  /** The exact length of a document: the line breaks between turns are on top of what the budget was charged for. */
  lemma RenderedLength(preamble: string, blocks: seq<string>)
    ensures var kept := KeptCount(blocks, Budget(preamble));
            Utf8Bytes(Rendered(preamble, blocks)) ==
            Utf8Bytes(preamble) + BlockBytes(blocks[..kept]) + (if kept == 0 then 0 else kept - 1) +
            if kept == |blocks| then 0 else NOTICE_BYTES - 10 + |Decimal(|blocks| - kept)|
  {
    hide Utf8Bytes, KeptCount, BlockBytes, JoinBlocks, Decimal, TruncationNotice, Budget;
    var kept := KeptCount(blocks, Budget(preamble));
    var body := JoinBlocks(blocks[..kept]);
    var notice :=
      if kept == |blocks| then "" else TruncationNotice(Decimal(SEGMENT_MAX_BYTES), Decimal(|blocks| - kept));
    Utf8Concat(preamble + body, notice);
    Utf8Concat(preamble, body);
    JoinedBytes(blocks[..kept]);
    SmallTexts();
    if kept < |blocks| {
      NoticeLength(|blocks| - kept);
    }
  }

  predicate PreambleFits(preamble: string) {
    Utf8Bytes(preamble) + NOTICE_BYTES + PER_TURN_OVERHEAD_BYTES <= SEGMENT_MAX_BYTES
  }

  /** If the preamble fits, a document stays within the cap plus one byte for each break between kept turns. */
  lemma SegmentBound(preamble: string, blocks: seq<string>)
    requires PreambleFits(preamble) && |blocks| < U64_BOUND
    ensures var kept := KeptCount(blocks, Budget(preamble));
            Utf8Bytes(Rendered(preamble, blocks)) <= SEGMENT_MAX_BYTES + (if kept == 0 then 0 else kept - 1)
    ensures var kept := KeptCount(blocks, Budget(preamble));
            kept <= 55 ==> Utf8Bytes(Rendered(preamble, blocks)) <= SEGMENT_MAX_BYTES
  {
    hide Utf8Bytes, KeptCount, BlockBytes, Rendered, Decimal;
    var kept := KeptCount(blocks, Budget(preamble));
    RenderedLength(preamble, blocks);
    KeptIsMaximal(blocks, Budget(preamble));
    DecimalLength(|blocks| - kept, 20);
    TwentyDigits();
  }

  lemma TwentyDigits()
    ensures U64_BOUND < Pow10(20)
  {
    Powers();
    assert Pow10(7) == 10 * Pow10(6) && Pow10(8) == 10 * Pow10(7) && Pow10(9) == 10 * Pow10(8);
    assert Pow10(10) == 10 * Pow10(9) && Pow10(11) == 10 * Pow10(10) && Pow10(12) == 10 * Pow10(11);
    assert Pow10(13) == 10 * Pow10(12) && Pow10(14) == 10 * Pow10(13) && Pow10(15) == 10 * Pow10(14);
    assert Pow10(16) == 10 * Pow10(15) && Pow10(17) == 10 * Pow10(16) && Pow10(18) == 10 * Pow10(17);
    assert Pow10(19) == 10 * Pow10(18) && Pow10(20) == 10 * Pow10(19);
  }

  lemma {:induction false} PrefixBytes(blocks: seq<string>, k: nat)
    requires k < |blocks|
    ensures BlockBytes(blocks[..k + 1]) == BlockBytes(blocks[..k]) + Utf8Bytes(blocks[k])
  {
    hide Utf8Bytes;
    if k == 0 {
      assert blocks[..0] == [] && blocks[..1] == [blocks[0]] && [blocks[0]][1..] == [];
    } else {
      assert blocks[..k + 1][1..] == blocks[1..][..k] && blocks[..k][1..] == blocks[1..][..k - 1];
      PrefixBytes(blocks[1..], k - 1);
    }
  }

  /**
   The cap is not a hard bound. If all turns fit the budget, the document keeps it exactly if the breaks between them
   fit beside them; otherwise exactly if the breaks between the kept turns and the notice do. The preamble need not fit.
   */
  lemma CapIsKeptExactly(preamble: string, blocks: seq<string>)
    ensures var (kept, within) :=
              (KeptCount(blocks, Budget(preamble)), Utf8Bytes(Rendered(preamble, blocks)) <= SEGMENT_MAX_BYTES);
            if BlockBytes(blocks) <= Budget(preamble) then
              && kept == |blocks|
              && (within <==> Utf8Bytes(preamble) + BlockBytes(blocks) + Minus(|blocks|, 1) <= SEGMENT_MAX_BYTES)
            else
              && kept < |blocks| && BlockBytes(blocks[..kept]) <= Budget(preamble) < BlockBytes(blocks[..kept + 1])
              && (within <==> Utf8Bytes(preamble) + BlockBytes(blocks[..kept]) + Minus(kept, 1) +
                              NOTICE_BYTES - 10 + |Decimal(|blocks| - kept)| <= SEGMENT_MAX_BYTES)
  {
    hide Utf8Bytes, KeptCount, BlockBytes, Rendered, Decimal, Budget;
    var kept := KeptCount(blocks, Budget(preamble));
    RenderedLength(preamble, blocks);
    KeptIsMaximal(blocks, Budget(preamble));
    assert blocks[..|blocks|] == blocks;
  }

  /**
   Whatever the turns are, a document runs over the cap when they all fit the budget but leave less room than their
   breaks take, and when it is cut behind more turns than the first omitted one and the slack have bytes.
   */
  lemma ShortTurnsExceedTheCap(preamble: string, blocks: seq<string>)
    requires PreambleFits(preamble)
    ensures BlockBytes(blocks) <= Budget(preamble) &&
            |blocks| > 1 + Budget(preamble) - BlockBytes(blocks) + NOTICE_BYTES + PER_TURN_OVERHEAD_BYTES ==>
              Utf8Bytes(Rendered(preamble, blocks)) > SEGMENT_MAX_BYTES
    ensures var kept := KeptCount(blocks, Budget(preamble));
            kept < |blocks| && kept > Utf8Bytes(blocks[kept]) + PER_TURN_OVERHEAD_BYTES + 9 ==>
              Utf8Bytes(Rendered(preamble, blocks)) > SEGMENT_MAX_BYTES
  {
    hide Utf8Bytes, KeptCount, BlockBytes, Rendered, Decimal;
    var kept := KeptCount(blocks, Budget(preamble));
    CapIsKeptExactly(preamble, blocks);
    if kept < |blocks| {
      PrefixBytes(blocks, kept);
    }
  }

  // ---------------------------------------------------------------- turns that the renderer produces

  datatype Role = System | Human | Assistant

  function RoleLabel(role: Role): string {
    match role
    case System => "System"
    case Human => "Human"
    case Assistant => "Assistant"
  }

  /** A turn without text or calls: its index and its role. */
  function TurnHeader(index: nat, role: Role): string {
    "### Turn " + Decimal(index) + " (" + RoleLabel(role) + ")\n"
  }

  function Headers(from: nat, roles: seq<Role>): (blocks: seq<string>) {
    seq(|roles|, k requires 0 <= k < |roles| => TurnHeader(from + k, roles[k]))
  }

  lemma HeaderBytes(index: nat, role: Role)
    requires index < U64_BOUND
    ensures 19 <= Utf8Bytes(TurnHeader(index, role)) <= 42
  {
    hide Utf8Bytes, Decimal;
    var header := TurnHeader(index, role);
    assert IsAscii(header);
    AsciiBytes(header);
    DecimalLength(index, 20);
    TwentyDigits();
  }

  lemma {:induction false} HeadersBytes(from: nat, roles: seq<Role>)
    requires from + |roles| <= U64_BOUND
    ensures 19 * |roles| <= BlockBytes(Headers(from, roles)) <= 42 * |roles|
    decreases |roles|
  {
    hide Utf8Bytes, TurnHeader;
    if roles != [] {
      assert Headers(from, roles)[1..] == Headers(from + 1, roles[1..]);
      HeaderBytes(from, roles[0]);
      HeadersBytes(from + 1, roles[1..]);
    }
  }

  /** Every session of enough turns without text gives a document over the cap, unless its preamble fills it. */
  lemma HeadersExceedTheCap(preamble: string, roles: seq<Role>)
    requires Utf8Bytes(preamble) <= 500_000 && 30_000 <= |roles| <= U64_BOUND
    ensures Utf8Bytes(Rendered(preamble, Headers(0, roles))) > SEGMENT_MAX_BYTES
  {
    hide Utf8Bytes, KeptCount, BlockBytes, Rendered, TurnHeader;
    var blocks := Headers(0, roles);
    var kept := KeptCount(blocks, Budget(preamble));
    HeadersBytes(0, roles);
    CapIsKeptExactly(preamble, blocks);
    assert blocks[..kept + 1] == Headers(0, roles[..kept + 1]);
    HeadersBytes(0, roles[..kept + 1]);
    HeaderBytes(kept, roles[kept]);
    ShortTurnsExceedTheCap(preamble, blocks);
  }

  /** The rendering loop: whole turns while they fit, then the notice. */
  method RenderSegment(preamble: string, blocks: seq<string>) returns (document: string)
    ensures document == Rendered(preamble, blocks)
  {
    hide Utf8Bytes, JoinBlocks, TruncationNotice, Decimal, Budget;
    var budget := Budget(preamble);
    var kept: seq<string>, used := [], 0;
    assert blocks[0..] == blocks;
    while |kept| < |blocks|
      invariant |kept| <= |blocks| && kept == blocks[..|kept|] && used <= budget
      invariant |kept| + KeptCount(blocks[|kept|..], budget - used) == KeptCount(blocks, budget)
      decreases |blocks| - |kept|
    {
      var block := blocks[|kept|];
      assert blocks[|kept|..][1..] == blocks[|kept| + 1..];
      if used + Utf8Bytes(block) > budget {
        break;
      }
      used := used + Utf8Bytes(block);
      kept := kept + [block];
    }
    var body := JoinBlocks(kept);
    if |kept| < |blocks| {
      body := body + TruncationNotice(Decimal(SEGMENT_MAX_BYTES), Decimal(|blocks| - |kept|));
      assert preamble + body == preamble + JoinBlocks(kept) +
             TruncationNotice(Decimal(SEGMENT_MAX_BYTES), Decimal(|blocks| - |kept|));
    } else {
      assert preamble + body == preamble + JoinBlocks(kept) + "";
    }
    document := preamble + body;
  }
}
