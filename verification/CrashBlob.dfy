/** The crash file: a fixed header, then the frames; written in two phases by the signal handler, parsed at startup. */
module CrashBlob {
  import opened Arithmetic
  import opened ByteStrings
  import opened Options
  import Utf8

  const MAGIC: Bytes := [0x47, 0x43, 0x52, 0x58]
  const FORMAT_VERSION: Byte := 1
  const MAX_FRAMES: nat := 64
  const VERSION_STRING_LEN: nat := 32
  const HEADER_SIZE: nat := 64

  type U64 = n: nat | n < 0x1_0000_0000_0000_0000 witness 0
  type U32 = n: nat | n < 0x1_0000_0000 witness 0
  type I32 = n: int | -0x8000_0000 <= n < 0x8000_0000 witness 0

  // ---------------------------------------------------------------- little-endian numbers

  function Pow256(k: nat): (p: nat)
    ensures p > 0
  {
    if k == 0 then 1 else 0x100 * Pow256(k - 1)
  }

  function ToBytes(n: nat, k: nat): (r: Bytes)
    ensures |r| == k
  {
    if k == 0 then [] else [(n % 0x100) as Byte] + ToBytes(n / 0x100, k - 1)
  }

  function FromBytes(s: Bytes): nat {
    if s == [] then 0 else s[0] as nat + 0x100 * FromBytes(s[1..])
  }

  lemma {:induction false} NumberRoundTrip(n: nat, k: nat)
    requires n < Pow256(k)
    ensures FromBytes(ToBytes(n, k)) == n
  {
    if k > 0 {
      assert n / 0x100 < Pow256(k - 1);
      NumberRoundTrip(n / 0x100, k - 1);
      assert ToBytes(n, k)[1..] == ToBytes(n / 0x100, k - 1);
    }
  }

  /** Two's complement. */
  function AsUnsigned(n: I32): U32 {
    if n < 0 then n + 0x1_0000_0000 else n
  }

  function AsSigned(n: U32): I32 {
    if n >= 0x8000_0000 then n - 0x1_0000_0000 else n
  }

  lemma Widths()
    ensures Pow256(2) == 0x1_0000 && Pow256(4) == 0x1_0000_0000 && Pow256(8) == 0x1_0000_0000_0000_0000
  {
    assert Pow256(1) == 0x100 && Pow256(2) == 0x1_0000 && Pow256(3) == 0x100_0000;
    assert Pow256(4) == 0x1_0000_0000;
    assert Pow256(5) == 0x100 * Pow256(4) && Pow256(6) == 0x100 * Pow256(5) && Pow256(7) == 0x100 * Pow256(6);
  }

  /** The lowest byte comes first: byte `i` is the digit of weight 256^i. */
  lemma {:induction false} LittleEndian(n: nat, k: nat, i: nat, low: nat, digit: Byte, high: nat)
    requires i < k && low < Pow256(i)
    requires n == low + Pow256(i) * digit as nat + Pow256(i + 1) * high
    ensures ToBytes(n, k)[i] == digit
  {
    if i == 0 {
      assert Pow256(0) == 1 && Pow256(1) == 0x100;
      assert n == digit as nat + 0x100 * high;
    } else {
      var p, q := Pow256(i - 1) * digit as nat, Pow256(i) * high;
      Shifted(Pow256(i - 1), digit as nat);
      Shifted(Pow256(i), high);
      assert n == 0x100 * (low / 0x100 + p + q) + low % 0x100;
      LittleEndian(n / 0x100, k - 1, i - 1, low / 0x100, digit, high);
    }
  }

  lemma Shifted(p: nat, x: nat)
    ensures (0x100 * p) * x == 0x100 * (p * x)
  {
  }

  lemma {:induction false} FromBytesBound(s: Bytes)
    ensures FromBytes(s) < Pow256(|s|)
  {
    if s != [] {
      FromBytesBound(s[1..]);
    }
  }

  // ---------------------------------------------------------------- printing

  datatype Fields = Fields(signal: Byte, siCode: I32, siAddr: U64, pid: U32, timestamp: U64)

  datatype Blob = Blob(fields: Fields, frames: seq<U64>, appVersion: string)

  function Zeros(n: nat): (r: Bytes)
    ensures |r| == n
  {
    seq(n, _ => 0)
  }

  /** The version string, cut or padded with zero bytes to its field. */
  function VersionField(version: Bytes): (r: Bytes)
    ensures |r| == VERSION_STRING_LEN
  {
    var n := Min(|version|, VERSION_STRING_LEN);
    version[..n] + Zeros(VERSION_STRING_LEN - n)
  }

  function Header(f: Fields, frameCount: nat, version: Bytes): (r: Bytes)
    ensures |r| == HEADER_SIZE
  {
    MAGIC + [FORMAT_VERSION, f.signal] + ToBytes(AsUnsigned(f.siCode), 4) + ToBytes(f.siAddr, 8) + ToBytes(f.pid, 4) +
    ToBytes(f.timestamp, 8) + ToBytes(frameCount, 2) + VersionField(version)
  }

  function FrameBytes(frames: seq<U64>): (r: Bytes)
    ensures |r| == 8 * |frames|
  {
    if frames == [] then [] else ToBytes(frames[0], 8) + FrameBytes(frames[1..])
  }

  function Printed(f: Fields, frames: seq<U64>, version: Bytes): Bytes {
    Header(f, |frames|, version) + FrameBytes(frames)
  }

  // ---------------------------------------------------------------- parsing

  function TrimNul(s: string): (r: string)
    ensures r <= s
  {
    if s != "" && s[|s| - 1] == '\0' then TrimNul(s[..|s| - 1]) else s
  }

  function ShownVersion(field: Bytes): string {
    match Utf8.Decode(field)
    case None => ""
    case Some(s) => TrimNul(s)
  }

  function Word64(s: Bytes): U64
    requires |s| == 8
  {
    FromBytesBound(s);
    Widths();
    FromBytes(s)
  }

  function Word32(s: Bytes): U32
    requires |s| == 4
  {
    FromBytesBound(s);
    Widths();
    FromBytes(s)
  }

  function ParseFrames(s: Bytes, n: nat): (r: seq<U64>)
    requires |s| >= 8 * n
    ensures |r| == n
  {
    if n == 0 then [] else [Word64(s[..8])] + ParseFrames(s[8..], n - 1)
  }

  function Parse(data: Bytes): Option<Blob> {
    if |data| < HEADER_SIZE || data[..4] != MAGIC || data[4] != FORMAT_VERSION then None
    else
      var fields :=
        Fields(data[5], AsSigned(Word32(data[6..10])), Word64(data[10..18]), Word32(data[18..22]),
          Word64(data[22..30]));
      var n := FromBytes(data[30..32]);
      if n > MAX_FRAMES || |data| < HEADER_SIZE + n * 8 then None
      else Some(Blob(fields, ParseFrames(data[HEADER_SIZE..], n), ShownVersion(data[32..HEADER_SIZE])))
  }

  // ---------------------------------------------------------------- the round trip

  lemma HeaderParts(f: Fields, n: nat, version: Bytes)
    ensures var h := Header(f, n, version);
            && h[..4] == MAGIC && h[4] == FORMAT_VERSION && h[5] == f.signal
            && h[6..10] == ToBytes(AsUnsigned(f.siCode), 4) && h[10..18] == ToBytes(f.siAddr, 8)
            && h[18..22] == ToBytes(f.pid, 4) && h[22..30] == ToBytes(f.timestamp, 8)
            && h[30..32] == ToBytes(n, 2) && h[32..] == VersionField(version)
  {
    hide ToBytes, VersionField;
  }

  lemma {:induction false} FramesRoundTrip(frames: seq<U64>, more: Bytes)
    ensures ParseFrames(FrameBytes(frames) + more, |frames|) == frames
  {
    hide ToBytes, FromBytes, Pow256;
    if frames != [] {
      var s := FrameBytes(frames) + more;
      assert s[..8] == ToBytes(frames[0], 8);
      assert s[8..] == FrameBytes(frames[1..]) + more;
      Widths();
      NumberRoundTrip(frames[0], 8);
      FramesRoundTrip(frames[1..], more);
    }
  }

  lemma FieldsRoundTrip(f: Fields, n: nat)
    requires n < 0x1_0000
    ensures AsSigned(Word32(ToBytes(AsUnsigned(f.siCode), 4))) == f.siCode
    ensures Word64(ToBytes(f.siAddr, 8)) == f.siAddr && Word32(ToBytes(f.pid, 4)) == f.pid
    ensures Word64(ToBytes(f.timestamp, 8)) == f.timestamp && FromBytes(ToBytes(n, 2)) == n
  {
    hide ToBytes, FromBytes, Pow256;
    Widths();
    NumberRoundTrip(AsUnsigned(f.siCode), 4);
    NumberRoundTrip(f.siAddr, 8);
    NumberRoundTrip(f.pid, 4);
    NumberRoundTrip(f.timestamp, 8);
    NumberRoundTrip(n, 2);
  }

  /**
   What is printed parses to its fields and frames and the shown version, whatever follows it in the file, if and only
   if there are at most 64 frames.
   */
  lemma PrintedParses(f: Fields, frames: seq<U64>, version: Bytes, more: Bytes)
    requires |frames| < 0x1_0000
    ensures Parse(Printed(f, frames, version) + more) ==
            if |frames| <= MAX_FRAMES then Some(Blob(f, frames, ShownVersion(VersionField(version)))) else None
  {
    hide ToBytes, FromBytes, VersionField, ShownVersion, Header, FrameBytes, ParseFrames, Word64, Word32, AsSigned,
         AsUnsigned;
    var h := Header(f, |frames|, version);
    var data := Printed(f, frames, version) + more;
    HeaderParts(f, |frames|, version);
    FieldsRoundTrip(f, |frames|);
    assert data == h + (FrameBytes(frames) + more);
    SlicesOfFront(h, FrameBytes(frames) + more);
    FramesRoundTrip(frames, more);
    assert h[32..HEADER_SIZE] == h[32..];
  }

  lemma SlicesOfFront(h: Bytes, rest: Bytes)
    requires |h| == HEADER_SIZE
    ensures (h + rest)[HEADER_SIZE..] == rest
    ensures forall i, j | 0 <= i <= j <= HEADER_SIZE :: (h + rest)[i..j] == h[i..j]
    ensures forall j | 0 <= j <= HEADER_SIZE :: (h + rest)[..j] == h[..j]
  {
  }

  function Nuls(n: nat): (r: string)
    ensures |r| == n
  {
    seq(n, _ => '\0')
  }

  lemma {:induction false} NulsEncode(n: nat)
    ensures Utf8.Encode(Nuls(n)) == Zeros(n)
  {
    if n > 0 {
      NulsEncode(n - 1);
      assert Nuls(n)[1..] == Nuls(n - 1);
      assert Zeros(n) == [0] + Zeros(n - 1);
    }
  }

  lemma {:induction false} TrimNulPast(s: string, n: nat)
    ensures TrimNul(s + Nuls(n)) == TrimNul(s)
  {
    if n == 0 {
      assert s + Nuls(0) == s;
    } else {
      assert (s + Nuls(n))[..|s| + n - 1] == s + Nuls(n - 1);
      TrimNulPast(s, n - 1);
    }
  }

  /** The version comes back exactly if its bytes fit the field and it does not end in a null character. */
  lemma VersionRoundTrip(version: string)
    ensures ShownVersion(VersionField(Utf8.Encode(version))) == version <==>
            |Utf8.Encode(version)| <= VERSION_STRING_LEN && (version == "" || version[|version| - 1] != '\0')
  {
    hide Utf8.Encode, Utf8.Decode, TrimNul, Zeros, Nuls;
    var bytes := Utf8.Encode(version);
    if |bytes| <= VERSION_STRING_LEN {
      var n := VERSION_STRING_LEN - |bytes|;
      NulsEncode(n);
      Utf8.EncodeConcat(version, Nuls(n));
      Utf8.DecodeEncoded(version + Nuls(n));
      assert bytes[..|bytes|] == bytes;
      TrimNulPast(version, n);
      TrimNulIs(version);
    } else {
      var field := VersionField(bytes);
      assert field == bytes[..VERSION_STRING_LEN] + Zeros(0) == bytes[..VERSION_STRING_LEN];
      match Utf8.Decode(field) {
        case None => EncodeNothing();
        case Some(s) =>
          Utf8.DecodedEncodes(field);
          PrefixEncodesShorter(TrimNul(s), s);
      }
    }
  }

  /**
   Of a version whose bytes do not fit, what is shown is the text whose bytes fill the field, without null characters at
   its end; nothing is shown if the field ends inside a character.
   */
  lemma LongVersionIsCut(version: string)
    requires |Utf8.Encode(version)| > VERSION_STRING_LEN
    ensures forall k | 0 <= k <= |version| && |Utf8.Encode(version[..k])| == VERSION_STRING_LEN ::
              ShownVersion(VersionField(Utf8.Encode(version))) == TrimNul(version[..k])
    ensures (forall k | 0 <= k <= |version| :: |Utf8.Encode(version[..k])| != VERSION_STRING_LEN) ==>
              ShownVersion(VersionField(Utf8.Encode(version))) == ""
  {
    hide Utf8.Encode, Utf8.Decode, TrimNul, Zeros;
    var bytes := Utf8.Encode(version);
    var field := VersionField(bytes);
    assert field == bytes[..VERSION_STRING_LEN] + Zeros(0) == bytes[..VERSION_STRING_LEN];
    forall k | 0 <= k <= |version| && |Utf8.Encode(version[..k])| == VERSION_STRING_LEN
      ensures ShownVersion(field) == TrimNul(version[..k])
    {
      Utf8.EncodeConcat(version[..k], version[k..]);
      assert version == version[..k] + version[k..];
      assert field == Utf8.Encode(version[..k]);
      Utf8.DecodeEncoded(version[..k]);
    }
    if Utf8.Decode(field).Some? {
      Utf8.DecodedEncodes(field);
      var s := Utf8.Decode(field).value;
      Utf8.PrefixOfEncoding(s, version);
      assert version[..|s|] == s;
    }
  }

  lemma EncodeNothing()
    ensures Utf8.Encode("") == []
  {
  }

  lemma TrimNulIs(s: string)
    ensures TrimNul(s) == s <==> s == "" || s[|s| - 1] != '\0'
  {
  }

  lemma PrefixEncodesShorter(a: string, s: string)
    requires a <= s
    ensures |Utf8.Encode(a)| <= |Utf8.Encode(s)|
  {
    hide Utf8.Encode;
    assert s == a + s[|a|..];
    Utf8.EncodeConcat(a, s[|a|..]);
  }

  // ---------------------------------------------------------------- the frame walk

  /** Memory as words; a read that faults is not part of the model. */
  type Memory = nat -> U64

  const PAGE: nat := 4096
  const WORD: nat := 8

  predicate IsFramePointer(fp: nat) {
    fp >= PAGE && fp % WORD == 0
  }

  /** The frame pointers that are visited, while room is left. */
  function Visited(mem: Memory, fp: nat, room: nat): (r: seq<nat>)
    ensures |r| <= room
    decreases room
  {
    if room == 0 || !IsFramePointer(fp) || mem(fp + WORD) < PAGE then []
    else if mem(fp) <= fp then [fp]
    else [fp] + Visited(mem, mem(fp), room - 1)
  }

  function ReturnAddresses(mem: Memory, fps: seq<nat>): (r: seq<U64>)
    ensures |r| == |fps|
  {
    if fps == [] then [] else [mem(fps[0] + WORD)] + ReturnAddresses(mem, fps[1..])
  }

  /** Each frame is aligned, holds a plausible return address, and links to a higher one. */
  predicate IsChain(mem: Memory, fps: seq<nat>) {
    fps == [] ||
    (IsFramePointer(fps[0]) && mem(fps[0] + WORD) >= PAGE && IsChain(mem, fps[1..]) &&
     (|fps| > 1 ==> fps[1] == mem(fps[0]) && fps[0] < fps[1]))
  }

  lemma {:induction false} WalkIsChain(mem: Memory, fp: nat, room: nat)
    ensures IsChain(mem, Visited(mem, fp, room))
    ensures Visited(mem, fp, room) != [] ==> Visited(mem, fp, room)[0] == fp
    decreases room
  {
    hide IsFramePointer;
    if room > 0 && IsFramePointer(fp) && mem(fp + WORD) >= PAGE && mem(fp) > fp {
      WalkIsChain(mem, mem(fp), room - 1);
      assert ([fp] + Visited(mem, mem(fp), room - 1))[1..] == Visited(mem, mem(fp), room - 1);
    }
  }

  predicate IsFrame(mem: Memory, fp: nat) {
    fp >= PAGE && fp % WORD == 0 && mem(fp + WORD) >= PAGE
  }

  /** The walk gives up only for want of room, or at what is no frame, or where the chain does not go up. */
  lemma {:induction false} WalkIsLongest(mem: Memory, fp: nat, room: nat)
    ensures var fps := Visited(mem, fp, room);
            |fps| == room || if fps == [] then !IsFrame(mem, fp)
                             else
                               var last := fps[|fps| - 1];
                               mem(last) <= last || !IsFrame(mem, mem(last))
    decreases room
  {
    if room > 0 && IsFrame(mem, fp) && mem(fp) > fp {
      WalkIsLongest(mem, mem(fp), room - 1);
    }
  }

  /** A chain goes strictly upward, so it visits no frame twice. */
  lemma {:induction false} ChainGoesUp(mem: Memory, fps: seq<nat>, j: nat, k: nat)
    requires IsChain(mem, fps) && j < k < |fps|
    ensures fps[j] < fps[k]
  {
    hide IsFramePointer;
    if j > 0 {
      ChainGoesUp(mem, fps[1..], j - 1, k - 1);
    } else if k > 1 {
      ChainGoesUp(mem, fps[1..], 0, k - 1);
    }
  }

  lemma VisitStep(mem: Memory, fp: nat, room: nat)
    ensures ReturnAddresses(mem, Visited(mem, fp, room)) ==
            if room == 0 || !IsFramePointer(fp) || mem(fp + WORD) < PAGE then []
            else
              [mem(fp + WORD)] +
              if mem(fp) <= fp then [] else ReturnAddresses(mem, Visited(mem, mem(fp), room - 1))
  {
    hide IsFramePointer;
    if room > 0 && IsFramePointer(fp) && mem(fp + WORD) >= PAGE {
      var rest := if mem(fp) <= fp then [] else Visited(mem, mem(fp), room - 1);
      assert Visited(mem, fp, room) == [fp] + rest;
      assert ([fp] + rest)[1..] == rest;
    }
  }

  lemma JoinNext(front: seq<U64>, address: U64, rest: seq<U64>)
    ensures front + ([address] + rest) == (front + [address]) + rest
    ensures front + [] == front
  {
  }

  /** Fills the array from the given position. */
  method WalkFramePointers(mem: Memory, initial: nat, out: array<U64>, from: nat, max: nat) returns (count: nat)
    requires from <= out.Length
    modifies out
    ensures from + count <= out.Length
    ensures out[..from + count] ==
            old(out[..from]) + ReturnAddresses(mem, Visited(mem, initial, Min(max, out.Length - from)))
  {
    hide *;
    var fp: nat := initial;
    count := 0;
    ghost var room := Min(max, out.Length - from);
    MinIs(max, out.Length - from);
    ghost var whole := out[..from] + ReturnAddresses(mem, Visited(mem, initial, room));
    while count < max
      invariant count <= room
      invariant out[..from + count] + ReturnAddresses(mem, Visited(mem, fp, room - count)) == whole
      decreases max - count
    {
      VisitStep(mem, fp, room - count);
      ghost var front := out[..from + count];
      JoinNext(front, 0, []);
      if !IsFramePointer(fp) {
        return;
      }
      var previous: nat, returnAddress := mem(fp), mem(fp + WORD);
      if returnAddress < PAGE || from + count >= out.Length {
        return;
      }
      JoinNext(
        front, returnAddress,
        if previous <= fp then [] else ReturnAddresses(mem, Visited(mem, previous, room - count - 1)));
      out[from + count] := returnAddress;
      count := count + 1;
      assert out[..from + count] == front + [returnAddress];
      JoinNext(out[..from + count], 0, []);
      if previous <= fp {
        return;
      }
      fp := previous;
    }
    VisitStep(mem, fp, room - count);
    JoinNext(out[..from + count], 0, []);
  }

  lemma MinIs(a: nat, b: nat)
    ensures Min(a, b) == if a <= b then a else b
  {
  }

  // ---------------------------------------------------------------- the writer

  method CopyAt(buf: array<Byte>, offset: nat, src: Bytes)
    requires offset + |src| <= buf.Length
    modifies buf
    ensures buf[..] == old(buf[..])[..offset] + src + old(buf[..])[offset + |src|..]
    ensures buf[..offset + |src|] == old(buf[..offset]) + src
  {
    for k := 0 to |src|
      invariant buf[..] == old(buf[..])[..offset] + src[..k] + old(buf[..])[offset + k..]
    {
      buf[offset + k] := src[k];
    }
    assert src[..|src|] == src;
  }

  /** Extends what stands at the front of the buffer. */
  method PutNext(buf: array<Byte>, offset: nat, src: Bytes)
    requires offset + |src| <= buf.Length
    modifies buf
    ensures buf[..offset + |src|] == old(buf[..offset]) + src
  {
    CopyAt(buf, offset, src);
  }

  /** Fills the first bytes of a buffer that is at least a header long. */
  method WriteHeader(buf: array<Byte>, f: Fields, frameCount: nat, version: Bytes) returns (written: nat)
    requires buf.Length >= HEADER_SIZE
    modifies buf
    ensures written == HEADER_SIZE && buf[..HEADER_SIZE] == Header(f, frameCount, version)
  {
    hide ToBytes, VersionField;
    PutNext(buf, 0, MAGIC);
    PutNext(buf, 4, [FORMAT_VERSION]);
    PutNext(buf, 5, [f.signal]);
    PutNext(buf, 6, ToBytes(AsUnsigned(f.siCode), 4));
    PutNext(buf, 10, ToBytes(f.siAddr, 8));
    PutNext(buf, 18, ToBytes(f.pid, 4));
    PutNext(buf, 22, ToBytes(f.timestamp, 8));
    PutNext(buf, 30, ToBytes(frameCount, 2));
    ghost var front := buf[..32];
    assert front == MAGIC + [FORMAT_VERSION] + [f.signal] + ToBytes(AsUnsigned(f.siCode), 4) + ToBytes(f.siAddr, 8) +
                    ToBytes(f.pid, 4) + ToBytes(f.timestamp, 8) + ToBytes(frameCount, 2);
    WriteVersion(buf, version);
    HeaderInPieces(f, frameCount, version);
    written := HEADER_SIZE;
  }

  lemma HeaderInPieces(f: Fields, n: nat, version: Bytes)
    ensures Header(f, n, version) ==
            MAGIC + [FORMAT_VERSION] + [f.signal] + ToBytes(AsUnsigned(f.siCode), 4) + ToBytes(f.siAddr, 8) +
            ToBytes(f.pid, 4) + ToBytes(f.timestamp, 8) + ToBytes(n, 2) + VersionField(version)
  {
    hide ToBytes, VersionField;
    assert MAGIC + [FORMAT_VERSION, f.signal] == MAGIC + [FORMAT_VERSION] + [f.signal];
  }

  method WriteVersion(buf: array<Byte>, version: Bytes)
    requires buf.Length >= HEADER_SIZE
    modifies buf
    ensures buf[..HEADER_SIZE] == old(buf[..32]) + VersionField(version)
  {
    CopyAt(buf, 32, Zeros(VERSION_STRING_LEN));
    ghost var filled := buf[..];
    var n := Min(|version|, VERSION_STRING_LEN);
    CopyAt(buf, 32, version[..n]);
    assert filled[32 + n..HEADER_SIZE] == Zeros(VERSION_STRING_LEN - n);
    assert buf[32 + n..HEADER_SIZE] == filled[32 + n..HEADER_SIZE];
    assert buf[..HEADER_SIZE] == buf[..32 + n] + buf[32 + n..HEADER_SIZE];
    assert filled[..32] == old(buf[..32]);
    assert buf[..32 + n] == filled[..32] + version[..n];
  }

  /** Appends one frame; a buffer without room is left as it is. */
  method WriteFrame(buf: array<Byte>, offset: nat, frame: U64) returns (next: nat)
    requires offset <= buf.Length
    modifies buf
    ensures next == if offset + 8 <= buf.Length then offset + 8 else offset
    ensures buf[..next] == old(buf[..offset]) + if offset + 8 <= buf.Length then ToBytes(frame, 8) else []
  {
    hide ToBytes;
    if offset + 8 > buf.Length {
      assert buf[..offset] + [] == buf[..offset];
      return offset;
    }
    CopyAt(buf, offset, ToBytes(frame, 8));
    next := offset + 8;
  }

  method WriteBlob(buf: array<Byte>, f: Fields, frames: seq<U64>, version: Bytes) returns (offset: nat)
    requires |frames| <= MAX_FRAMES && buf.Length >= HEADER_SIZE + 8 * MAX_FRAMES
    modifies buf
    ensures offset <= buf.Length && buf[..offset] == Printed(f, frames, version)
  {
    hide ToBytes, FrameBytes, Header;
    offset := WriteHeader(buf, f, |frames|, version);
    NoFrames();
    assert frames[..0] == [] && buf[..offset] + [] == buf[..offset];
    for k := 0 to |frames|
      invariant offset == HEADER_SIZE + 8 * k
      invariant buf[..offset] == Header(f, |frames|, version) + FrameBytes(frames[..k])
    {
      FramesSnoc(frames[..k], frames[k]);
      assert frames[..k + 1] == frames[..k] + [frames[k]];
      ghost var head := Header(f, |frames|, version);
      assert head + FrameBytes(frames[..k]) + ToBytes(frames[k], 8) ==
             head + (FrameBytes(frames[..k]) + ToBytes(frames[k], 8));
      offset := WriteFrame(buf, offset, frames[k]);
    }
    assert frames[..|frames|] == frames;
  }

  lemma NoFrames()
    ensures FrameBytes([]) == []
  {
  }

  lemma {:induction false} FramesSnoc(frames: seq<U64>, frame: U64)
    ensures FrameBytes(frames + [frame]) == FrameBytes(frames) + ToBytes(frame, 8)
  {
    hide ToBytes;
    if frames == [] {
      assert frames + [frame] == [frame] && [frame][1..] == [];
      assert ToBytes(frame, 8) + [] == ToBytes(frame, 8) && [] + ToBytes(frame, 8) == ToBytes(frame, 8);
    } else {
      assert (frames + [frame])[1..] == frames[1..] + [frame];
      FramesSnoc(frames[1..], frame);
      var a, b, c := ToBytes(frames[0], 8), FrameBytes(frames[1..]), ToBytes(frame, 8);
      assert a + (b + c) == (a + b) + c;
    }
  }

  // ---------------------------------------------------------------- the two phases

  /** What a write at the start of the file leaves. */
  function Overwritten(file: Bytes, data: Bytes): Bytes {
    data + if |data| <= |file| then file[|data|..] else []
  }

  function FirstFrames(pc: U64): seq<U64> {
    if pc == 0 then [] else [pc]
  }

  function WalkedFrames(mem: Memory, pc: U64, fp: nat): seq<U64> {
    if pc == 0 || fp == 0 then [] else ReturnAddresses(mem, Visited(mem, fp, MAX_FRAMES - 1))
  }

  function FirstFile(f: Fields, version: Bytes, pc: U64): Bytes {
    Overwritten([], Printed(f, FirstFrames(pc), version))
  }

  /** The file after the handler; the second write only comes when the walk found something. */
  function FinalFile(mem: Memory, f: Fields, version: Bytes, pc: U64, fp: nat): Bytes {
    var walked := WalkedFrames(mem, pc, fp);
    if walked == [] then FirstFile(f, version, pc)
    else Overwritten(FirstFile(f, version, pc), Printed(f, FirstFrames(pc) + walked, version))
  }

  /** The file parses after either write, to the same fields, and the second frame list extends the first. */
  lemma ParsesAfterEitherWrite(mem: Memory, f: Fields, version: Bytes, pc: U64, fp: nat)
    ensures var first, final := Parse(FirstFile(f, version, pc)), Parse(FinalFile(mem, f, version, pc, fp));
            var shown := ShownVersion(VersionField(version));
            && first == Some(Blob(f, FirstFrames(pc), shown))
            && final == Some(Blob(f, FirstFrames(pc) + WalkedFrames(mem, pc, fp), shown))
  {
    hide Parse, Visited, ReturnAddresses, Header, FrameBytes, ShownVersion, VersionField;
    var walked := WalkedFrames(mem, pc, fp);
    var whole := Printed(f, FirstFrames(pc), version);
    assert whole + [] == whole;
    PrintedParses(f, FirstFrames(pc), version, []);
    if walked == [] {
      assert FirstFrames(pc) + walked == FirstFrames(pc);
    } else {
      var more := Printed(f, FirstFrames(pc) + walked, version);
      PrintedParses(f, FirstFrames(pc) + walked, version, []);
      assert more + [] == more;
      assert |more| > |FirstFile(f, version, pc)|;
    }
  }

  class CrashFile {
    var contents: Bytes
    var position: nat

    constructor ()
      ensures contents == [] && position == 0
    {
      contents, position := [], 0;
    }

    method Rewind()
      modifies `position
      ensures position == 0
    {
      position := 0;
    }

    /** Writes at the start of the file, as both phases do. */
    method Write(data: Bytes)
      requires position == 0
      modifies this
      ensures contents == Overwritten(old(contents), data) && position == |data|
    {
      contents := data + if |data| <= |contents| then contents[|data|..] else [];
      position := |data|;
    }
  }

  method WriteCrashBlob(file: CrashFile, mem: Memory, f: Fields, version: Bytes, pc: U64, fp: nat)
    requires file.contents == [] && file.position == 0
    modifies file
    ensures file.contents == FinalFile(mem, f, version, pc, fp)
  {
    hide Printed, Visited, ReturnAddresses;
    var buf := new Byte[HEADER_SIZE + 8 * MAX_FRAMES];
    var frames := new U64[MAX_FRAMES];
    var count := 0;
    if pc != 0 {
      frames[0] := pc;
      count := 1;
    }
    assert frames[..count] == FirstFrames(pc);
    var offset := WriteBlob(buf, f, frames[..count], version);
    file.Write(buf[..offset]);
    if fp != 0 && pc != 0 {
      var walked := WalkFramePointers(mem, fp, frames, 1, MAX_FRAMES - 1);
      if walked > 0 {
        count := count + walked;
        offset := WriteBlob(buf, f, frames[..count], version);
        file.Rewind();
        file.Write(buf[..offset]);
      }
    }
  }
}
