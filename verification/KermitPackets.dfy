/** Bytes on a Kermit line, and the parity that may take their eighth bit. */
module KermitParity {

  type Byte = x: nat | x < 256

  const NUL: Byte := 0

  datatype Parity = Off | Mark | Space | Odd | Even | Unknown

  // ---- on bits ----------------------------------------------------------------

  function Wire(parity: Parity, b: bv8): bv8 {
    var value := b & 0x7f;
    match parity
    case Off => b
    case Mark => value | 0x80
    case Space => value & 0x7f
    case Odd => value | ((1 - Fold(value)) << 7)
    case Even => value | (Fold(value) << 7)
    case Unknown => value
  }

  /** Exclusive or of the bits, by halves. */
  function Fold(value: bv8): bv8 {
    var nibble := (value & 15) ^ ((value >> 4) & 15);
    var pair := (nibble & 3) ^ ((nibble >> 2) & 3);
    (pair & 1) ^ ((pair >> 1) & 1)
  }

  function Bit(b: bv8, i: nat): bv8
    requires i < 8
  {
    (b >> i) & 1
  }

  /** The exclusive or of all eight bits: zero when an even number of them is set. */
  function XorOfBits(b: bv8): bv8 {
    Bit(b, 0) ^ Bit(b, 1) ^ Bit(b, 2) ^ Bit(b, 3) ^ Bit(b, 4) ^ Bit(b, 5) ^ Bit(b, 6) ^ Bit(b, 7)
  }

  /** What each mode promises about a byte on the line, apart from its seven data bits. */
  predicate HasParity(parity: Parity, b: bv8) {
    match parity
    case Off => true
    case Mark => Bit(b, 7) == 1
    case Space | Unknown => Bit(b, 7) == 0
    case Odd => XorOfBits(b) == 1
    case Even => XorOfBits(b) == 0
  }

  lemma WireIsExact(parity: Parity, b: bv8, c: bv8)
    requires parity == Off || b < 0x80
    ensures c == Wire(parity, b) <==> (if parity == Off then c else c & 0x7f) == b && HasParity(parity, c)
  {
  }

  lemma WireTwice(parity: Parity, b: bv8)
    ensures Wire(parity, Wire(parity, b)) == Wire(parity, b)
  {
  }

  // ---- on bytes ---------------------------------------------------------------

  function DoPar(parity: Parity, b: Byte): Byte {
    Wire(parity, b as bv8) as Byte
  }

  /** What the reader makes of a byte from the line: masking with 0x7f keeps the remainder by 128. */
  function Strip(parity: Parity, b: Byte): Byte {
    if parity == Off then b else b % 128
  }

  lemma ThereAndBack(b: Byte)
    ensures (b as bv8) as Byte == b
  {
    if b < 16 {} else if b < 32 {} else if b < 64 {} else if b < 128 {} else {}
  }

  lemma BackAndThere(b: bv8)
    ensures (b as Byte) as bv8 == b
  {
  }

  lemma SameBits(b: bv8, c: Byte)
    ensures b as Byte == c <==> b == c as bv8
  {
    ThereAndBack(c);
    BackAndThere(b);
  }

  lemma LowBytes(b: bv8)
    ensures b as Byte < 128 <==> b < 128
    ensures b < 128 ==> b & 0x7f == b
  {
  }

  lemma MaskKeepsRemainder(b: bv8)
    ensures (b & 0x7f) as Byte == (b as Byte) % 128
  {
  }

  lemma MaskIsRemainder(b: Byte)
    ensures ((b as bv8) & 0x7f) as Byte == b % 128
  {
    ThereAndBack(b);
    MaskKeepsRemainder(b as bv8);
  }

  lemma ReadsBack(parity: Parity, b: Byte, c: Byte)
    requires parity == Off || b < 128
    ensures Strip(parity, c) == b <==> (if parity == Off then c as bv8 else (c as bv8) & 0x7f) == b as bv8
    ensures parity == Off || (b as bv8) < 0x80
  {
    if parity == Off {
      ThereAndBack(c);
      SameBits(c as bv8, b);
    } else {
      MaskIsRemainder(c);
      SameBits((c as bv8) & 0x7f, b);
      ThereAndBack(b);
      LowBytes(b as bv8);
    }
  }

  /** The byte sent for `b` is the only one that has the right parity and reads back as `b`. */
  lemma ParityIsExact(parity: Parity, b: Byte, c: Byte)
    requires parity == Off || b < 128
    ensures c == DoPar(parity, b) <==> Strip(parity, c) == b && HasParity(parity, c as bv8)
  {
    SameBits(Wire(parity, b as bv8), c);
    ReadsBack(parity, b, c);
    WireIsExact(parity, b as bv8, c as bv8);
  }

  /** A byte that already carries its parity is sent unchanged. */
  lemma ParityTwice(parity: Parity, b: Byte)
    ensures DoPar(parity, DoPar(parity, b)) == DoPar(parity, b)
  {
    WireTwice(parity, b as bv8);
  }

  function ParityAll(parity: Parity, s: seq<Byte>): (r: seq<Byte>)
    ensures |r| == |s| && forall i :: 0 <= i < |s| ==> r[i] == DoPar(parity, s[i])
  {
    seq(|s|, i requires 0 <= i < |s| => DoPar(parity, s[i]))
  }

  function StripAll(parity: Parity, s: seq<Byte>): (r: seq<Byte>)
    ensures |r| == |s| && forall i :: 0 <= i < |s| ==> r[i] == Strip(parity, s[i])
  {
    seq(|s|, i requires 0 <= i < |s| => Strip(parity, s[i]))
  }

  /** A buffer that was given parity once is sent again as the same bytes. */
  lemma ParityAllTwice(parity: Parity, s: seq<Byte>)
    ensures ParityAll(parity, ParityAll(parity, s)) == ParityAll(parity, s)
  {
    forall i | 0 <= i < |s| ensures DoPar(parity, DoPar(parity, s[i])) == DoPar(parity, s[i]) {
      ParityTwice(parity, s[i]);
    }
  }

  lemma ParityOffChangesNothing(s: seq<Byte>)
    ensures ParityAll(Off, s) == s
  {
    forall i | 0 <= i < |s| ensures DoPar(Off, s[i]) == s[i] {
      ThereAndBack(s[i]);
    }
  }

  predicate Sendable(parity: Parity, s: seq<Byte>) {
    parity == Off || forall i :: 0 <= i < |s| ==> s[i] < 128
  }

  lemma StripUndoesParity(parity: Parity, s: seq<Byte>)
    requires Sendable(parity, s)
    ensures StripAll(parity, ParityAll(parity, s)) == s
  {
    forall i | 0 <= i < |s| ensures Strip(parity, DoPar(parity, s[i])) == s[i] {
      ParityIsExact(parity, s[i], DoPar(parity, s[i]));
    }
  }
}

/** The packet reader and writer beneath a Kermit session: framing by the length field (section
    6.1 of the Kermit Protocol Manual, sixth edition, and its extended-length header), the
    parity of every byte, and the three-interrupt escape. */
module KermitPackets {
  import opened Base
  import opened KermitParity

  const CTRL_C: Byte := 3

  // ---- the packet format ------------------------------------------------------

  function ToChar(n: nat): Byte
    requires n < 95
  {
    n + 32
  }

  function Unchar(b: Byte): int {
    b - 32
  }

  /** `Short`: the length character counts what follows it.  `Long`: the length character is a
      blank, and two more characters count what follows the header check. */
  datatype Packet =
    | Short(body: seq<Byte>)
    | Long(number: Byte, kind: Byte, check: Byte, body: seq<Byte>)

  predicate WellFormed(p: Packet) {
    match p
    case Short(body) => 2 <= |body| < 95
    case Long(_, _, _, body) => |body| < 95 * 95
  }

  type ValidPacket = p: Packet | WellFormed(p) witness Short([0, 0])

  function Encode(soh: Byte, p: ValidPacket): seq<Byte> {
    match p
    case Short(body) => [soh, ToChar(|body|)] + body
    case Long(number, kind, check, body) =>
      [soh, ToChar(0), number, kind, ToChar(|body| / 95), ToChar(|body| % 95), check] + body
  }

  /** The length announced at position `i`, whatever the parity of the byte there. */
  function LengthAt(kept: seq<Byte>, i: nat): int
    requires i < |kept|
  {
    Unchar(kept[i] % 128)
  }

  /** The size of the packet that begins with `kept`, once enough of it has come to tell. */
  function FrameLength(kept: seq<Byte>): Option<int> {
    if |kept| >= 2 && LengthAt(kept, 1) > 1 then Some(LengthAt(kept, 1) + 2)
    else if |kept| >= 6 && LengthAt(kept, 1) == 0 then Some(LengthAt(kept, 4) * 95 + LengthAt(kept, 5) + 7)
    else None
  }

  // ---- reading one packet -----------------------------------------------------

  datatype Setting = Setting(parity: Parity, soh: Byte, turn: Byte, max: int)

  datatype Answer = Count(count: nat) | Failure(code: int) | Exit

  /** What a call answers, the bytes it stored, and what it left on the line. */
  datatype Outcome = Outcome(answer: Answer, kept: seq<Byte>, rest: seq<Byte>)

  predicate Finished(setting: Setting, kept: seq<Byte>) {
    && FrameLength(kept).Some? && |kept| >= FrameLength(kept).value
    && (setting.turn == NUL || kept[|kept| - 1] == setting.turn)
  }

  /** Reading on from the bytes `kept` so far, with `interrupts` consecutive interrupt characters
      just seen.  `failure` is the code of the read that finds no more bytes. */
  function Receive(setting: Setting, failure: int, line: seq<Byte>, kept: seq<Byte>, interrupts: nat): (o: Outcome)
    decreases |line|
  {
    if line == [] then Outcome(Failure(failure), kept, [])
    else
      var value := Strip(setting.parity, line[0]);
      var run := if value == CTRL_C then interrupts + 1 else 0;
      if run > 2 then Outcome(Exit, kept, line[1..])
      else if kept == [] && value != setting.soh then Receive(setting, failure, line[1..], kept, run)
      else if |kept| >= setting.max then Outcome(Failure(-2), kept, line[1..])
      else if Finished(setting, kept + [value]) then Outcome(Count(|kept| + 1), kept + [value], line[1..])
      else Receive(setting, failure, line[1..], kept + [value], run)
  }

  /** What the reader's three variables know of the bytes stored so far. */
  predicate Tracks(kept: seq<Byte>, haveLength: bool, packetLength: int, longLength: int) {
    && FrameLength(kept) == (if haveLength then Some(packetLength + 2) else None)
    && (!haveLength ==> packetLength == if |kept| < 2 then 0 else LengthAt(kept, 1))
    && (!haveLength && |kept| == 5 && packetLength == 0 ==> longLength == LengthAt(kept, 4))
  }

  /** The length bookkeeping once `value` is stored after the bytes `kept`. */
  method Measure(ghost kept: seq<Byte>, value: Byte, count: nat, haveLength: bool, packetLength: int, longLength: int)
    returns (have: bool, length: int, long: int)
    requires count == |kept| + 1
    requires Tracks(kept, haveLength, packetLength, longLength)
    ensures Tracks(kept + [value], have, length, long)
  {
    have, length, long := haveLength, packetLength, longLength;
    if !have {
      if count == 2 {
        length := Unchar(value % 128);
        if length > 1 {
          have := true;
        }
      } else if count == 5 && length == 0 {
        long := Unchar(value % 128);
      } else if count == 6 && length == 0 {
        length := long * 95 + Unchar(value % 128) + 5;
        have := true;
      }
    }
  }

  /** A failed write leaves a proper part of `data` sent. */
  ghost predicate PartlySent(before: seq<Byte>, data: seq<Byte>, after: seq<Byte>) {
    exists k :: 0 <= k < |data| && after == before + data[..k]
  }

  class Port {
    var parity: Parity
    var input: seq<Byte>
    var output: seq<Byte>

    constructor (arriving: seq<Byte>)
      ensures parity == Off && input == arriving && output == []
    {
      parity, input, output := Off, arriving, [];
    }

    /** Reads one packet into `dest`, which holds one byte more than `max`. */
    method Ttinl(dest: array?<Byte>, max: int, soh: Byte, turn: Byte, failure: int) returns (answer: Answer)
      requires dest != null ==> max < dest.Length
      modifies this`input, dest
      ensures dest == null || max < 1 ==> answer == Failure(-2) && input == old(input)
      ensures max < 1 && dest != null ==> dest[..] == old(dest[..])
      ensures dest != null && max >= 1 ==>
                var o := Receive(Setting(parity, soh, turn, max), failure, old(input), [], 0);
                && answer == o.answer && input == o.rest
                && |o.kept| <= max && dest[..|o.kept|] == o.kept
                && (answer.Count? ==> dest[|o.kept|] == NUL)
                && forall i :: |o.kept| < i < dest.Length ==> dest[i] == old(dest[i])
    {
      if dest == null || max < 1 {
        return Failure(-2);
      }
      ghost var setting := Setting(parity, soh, turn, max);
      ghost var whole := Receive(setting, failure, input, [], 0);
      ghost var kept: seq<Byte> := [];
      var count := 0;
      var started := false;
      var interrupts := 0;
      var haveLength := false;
      var packetLength := 0;
      var longLength := 0;
      dest[0] := NUL;
      while true
        invariant count == |kept| <= max && 0 <= interrupts <= 2
        invariant kept == dest[..count]
        invariant Receive(setting, failure, input, kept, interrupts) == whole
        invariant started <==> kept != []
        invariant Tracks(kept, haveLength, packetLength, longLength)
        invariant parity == setting.parity
        invariant forall i :: count <= i < dest.Length && i > 0 ==> dest[i] == old(dest[i])
        decreases |input|
      {
        if input == [] {
          return Failure(failure);
        }
        var value := Strip(parity, input[0]);
        input := input[1..];
        if value == CTRL_C {
          interrupts := interrupts + 1;
          if interrupts > 2 {
            return Exit;
          }
        } else {
          interrupts := 0;
        }
        if !started && value != soh {
          continue;
        }
        started := true;
        if count >= max {
          return Failure(-2);
        }
        dest[count] := value;
        count := count + 1;
        haveLength, packetLength, longLength := Measure(kept, value, count, haveLength, packetLength, longLength);
        kept := kept + [value];
        if haveLength && count > packetLength + 1 {
          if turn != NUL && value != turn {
            continue;
          }
          dest[count] := NUL;
          return Count(count);
        }
      }
    }

    /** Gives `data` its parity in place and writes it, in as many pieces as the pipe takes.
        `ready` says whether the output handle is usable. */
    method Ttol(data: array?<Byte>, length: int, ready: bool) returns (sent: int)
      requires data != null ==> length <= data.Length
      modifies this`output, data
      ensures data == null || length < 0 || !ready ==> sent == -1 && output == old(output)
      ensures data != null && (length < 0 || !ready) ==> data[..] == old(data[..])
      ensures data != null && length >= 0 && ready ==>
                && data[..] == ParityAll(parity, old(data[..length])) + old(data[length..])
                && if sent == length then output == old(output) + ParityAll(parity, old(data[..length]))
                   else sent == -1 && PartlySent(old(output), ParityAll(parity, old(data[..length])), output)
    {
      if data == null || length < 0 || !ready {
        return -1;
      }
      if parity != Off {
        AddParity(data, length);
      } else {
        ParityOffChangesNothing(data[..length]);
        assert data[..] == data[..length] + data[length..];
      }
      ghost var marked := ParityAll(parity, old(data[..length]));
      assert data[..length] == marked;
      var complete := WriteAll(data, length);
      return if complete then length else -1;
    }

    /** Writes the first `length` bytes in as many pieces as the pipe takes. */
    method WriteAll(data: array<Byte>, length: nat) returns (complete: bool)
      requires length <= data.Length
      modifies this`output
      ensures complete ==> output == old(output) + data[..length]
      ensures !complete ==> PartlySent(old(output), data[..length], output)
    {
      var offset := 0;
      while offset < length
        invariant 0 <= offset <= length
        invariant output == old(output) + data[..offset]
        decreases length - offset
      {
        var written := WriteFile(data, offset, length - offset);
        if written == 0 {
          assert data[..length][..offset] == data[..offset];
          return false;
        }
        assert data[..offset] + data[offset..offset + written] == data[..offset + written];
        offset := offset + written;
      }
      return true;
    }

    method AddParity(data: array<Byte>, length: nat)
      requires length <= data.Length
      modifies data
      ensures data[..] == ParityAll(parity, old(data[..length])) + old(data[length..])
    {
      ghost var marked := ParityAll(parity, data[..length]);
      var index := 0;
      while index < length
        invariant 0 <= index <= length
        invariant forall i :: 0 <= i < index ==> data[i] == marked[i]
        invariant forall i :: index <= i < data.Length ==> data[i] == old(data[i])
      {
        data[index] := DoPar(parity, data[index]);
        index := index + 1;
      }
      assert data[..length] == marked;
    }

    /** The pipe takes some of the bytes, or none when the write fails. */
    method WriteFile(data: array<Byte>, offset: nat, remaining: nat) returns (written: nat)
      requires offset + remaining <= data.Length
      modifies this`output
      ensures written <= remaining
      ensures output == old(output) + data[offset..offset + written]
    {
      written :| 0 <= written <= remaining;
      output := output + data[offset..offset + written];
    }
  }

  // ---- what is sent is what is read -------------------------------------------

  /** Bytes that begin no packet, then a packet. */
  datatype Segment = Segment(noise: seq<Byte>, packet: ValidPacket)

  function OnLine(setting: Setting, s: Segment): seq<Byte> {
    s.noise + ParityAll(setting.parity, Encode(setting.soh, s.packet))
  }

  function Heard(setting: Setting, s: Segment): seq<Byte> {
    StripAll(setting.parity, s.noise) + Encode(setting.soh, s.packet)
  }

  predicate Uninterrupted(s: seq<Byte>) {
    forall i :: 0 <= i < |s| - 2 ==> !(s[i] == CTRL_C && s[i + 1] == CTRL_C && s[i + 2] == CTRL_C)
  }

  predicate Readable(setting: Setting, s: Segment) {
    && |Encode(setting.soh, s.packet)| <= setting.max
    && Sendable(setting.parity, Encode(setting.soh, s.packet))
    && setting.soh !in StripAll(setting.parity, s.noise)
    && Uninterrupted(Heard(setting, s))
  }

  /** The run of interrupt characters that ends `s`. */
  function Trailing(s: seq<Byte>): nat {
    if s == [] || s[|s| - 1] != CTRL_C then 0 else 1 + Trailing(s[..|s| - 1])
  }

  lemma TrailingGrows(s: seq<Byte>, k: nat)
    requires Uninterrupted(s) && k < |s|
    ensures Trailing(s[..k + 1]) == if s[k] == CTRL_C then Trailing(s[..k]) + 1 else 0
    ensures Trailing(s[..k + 1]) <= 2
  {
    assert s[..k + 1][..k] == s[..k];
    if k >= 1 { assert s[..k][..k - 1] == s[..k - 1]; }
    if k >= 2 { assert s[..k - 1][..k - 2] == s[..k - 2]; }
  }

  lemma FrameLengthOfShort(soh: Byte, p: ValidPacket, m: nat)
    requires p.Short? && m <= |Encode(soh, p)|
    ensures FrameLength(Encode(soh, p)[..m]) == if m < 2 then None else Some(|Encode(soh, p)|)
  {
    var e := Encode(soh, p);
    assert e[1] == ToChar(|p.body|);
  }

  lemma FrameLengthOfLong(soh: Byte, p: ValidPacket, m: nat)
    requires p.Long? && m <= |Encode(soh, p)|
    ensures FrameLength(Encode(soh, p)[..m]) == if m < 6 then None else Some(|Encode(soh, p)|)
  {
    var e := Encode(soh, p);
    assert e[1] == ToChar(0) && e[4] == ToChar(|p.body| / 95) && e[5] == ToChar(|p.body| % 95);
  }

  /** The length is known only from the packet's own header, and it is the packet's length. */
  lemma FrameLengthOfPacket(soh: Byte, p: ValidPacket, m: nat)
    requires m <= |Encode(soh, p)|
    ensures var e := Encode(soh, p);
            FrameLength(e[..m]) == if m < (if p.Short? then 2 else 6) then None else Some(|e|)
  {
    if p.Short? {
      FrameLengthOfShort(soh, p, m);
    } else {
      FrameLengthOfLong(soh, p, m);
    }
  }

  /** The reader stops at the end of `e` and not before. */
  predicate Framed(setting: Setting, e: seq<Byte>) {
    && 1 <= |e| <= setting.max && e[0] == setting.soh && Finished(setting, e)
    && forall m :: 1 <= m < |e| ==> !Finished(setting, e[..m])
  }

  /** Reading on inside the packet, after its first `m` bytes. */
  lemma {:induction false} ReadsPacket(setting: Setting, failure: int, wire: seq<Byte>, noise: seq<Byte>, e: seq<Byte>,
                                       rest: seq<Byte>, m: nat)
    requires Framed(setting, e) && Uninterrupted(noise + e)
    requires StripAll(setting.parity, wire) == e && m < |e|
    ensures Receive(setting, failure, wire[m..] + rest, e[..m], Trailing((noise + e)[..|noise| + m]))
            == Outcome(Count(|e|), e, rest)
    decreases |e| - m
  {
    NextByte(setting.parity, wire, e, rest, m);
    TrailingGrows(noise + e, |noise| + m);
    KeepsTheByte(setting, failure, wire[m..] + rest, e[..m], Trailing((noise + e)[..|noise| + m]), e[m]);
    if m + 1 < |e| {
      ReadsPacket(setting, failure, wire, noise, e, rest, m + 1);
    }
  }

  /** One step of the reader inside a packet. */
  lemma KeepsTheByte(setting: Setting, failure: int, line: seq<Byte>, kept: seq<Byte>, interrupts: nat, value: Byte)
    requires line != [] && Strip(setting.parity, line[0]) == value && |kept| < setting.max
    requires kept != [] || value == setting.soh
    requires value == CTRL_C ==> interrupts < 2
    ensures Receive(setting, failure, line, kept, interrupts)
            == if Finished(setting, kept + [value])
               then Outcome(Count(|kept| + 1), kept + [value], line[1..])
               else Receive(setting, failure, line[1..], kept + [value], if value == CTRL_C then interrupts + 1 else 0)
  {
  }

  /** What the reader finds next after `m` bytes of the packet `e`, sent as `wire`. */
  lemma NextByte(parity: Parity, wire: seq<Byte>, e: seq<Byte>, rest: seq<Byte>, m: nat)
    requires StripAll(parity, wire) == e && m < |e|
    ensures var line := wire[m..] + rest;
            && line != [] && Strip(parity, line[0]) == e[m]
            && line[1..] == wire[m + 1..] + rest
            && e[..m] + [e[m]] == e[..m + 1]
            && (m + 1 == |e| ==> e[..m + 1] == e && line[1..] == rest)
  {
  }

  /** Skipping the noise, of which the first `k` bytes are already skipped. */
  lemma {:induction false} SkipsNoise(setting: Setting, failure: int, before: seq<Byte>, wire: seq<Byte>,
                                      noise: seq<Byte>, e: seq<Byte>, rest: seq<Byte>, k: nat)
    requires Framed(setting, e) && Uninterrupted(noise + e) && setting.soh !in noise
    requires StripAll(setting.parity, before) == noise && StripAll(setting.parity, wire) == e && k <= |noise|
    ensures Receive(setting, failure, before[k..] + wire + rest, [], Trailing((noise + e)[..k]))
            == Outcome(Count(|e|), e, rest)
    decreases |noise| - k
  {
    if k == |noise| {
      assert before[k..] + wire + rest == wire[0..] + rest;
      ReadsPacket(setting, failure, wire, noise, e, rest, 0);
    } else {
      var line := before[k..] + wire + rest;
      assert Strip(setting.parity, line[0]) == noise[k] == (noise + e)[k];
      assert line[1..] == before[k + 1..] + wire + rest;
      TrailingGrows(noise + e, k);
      SkipsNoise(setting, failure, before, wire, noise, e, rest, k + 1);
    }
  }

  lemma ReadsTheSegment(setting: Setting, failure: int, s: Segment, rest: seq<Byte>)
    requires setting.turn == NUL && Readable(setting, s)
    ensures var e := Encode(setting.soh, s.packet);
            Receive(setting, failure, OnLine(setting, s) + rest, [], 0) == Outcome(Count(|e|), e, rest)
  {
    var e := Encode(setting.soh, s.packet);
    StripUndoesParity(setting.parity, e);
    forall m | 1 <= m < |e| ensures !Finished(setting, e[..m]) {
      FrameLengthOfPacket(setting.soh, s.packet, m);
    }
    FrameLengthOfPacket(setting.soh, s.packet, |e|);
    assert e[..|e|] == e;
    SkipsNoise(setting, failure, s.noise, ParityAll(setting.parity, e), StripAll(setting.parity, s.noise), e, rest, 0);
  }

  // ---- exactly what one read does ---------------------------------------------

  /** Somewhere in `s`, after `n` interrupt characters in a row, there is a third in a row. */
  predicate Interrupted(n: nat, s: seq<Byte>)
    decreases |s|
  {
    s != [] &&
    var run := if s[0] == CTRL_C then n + 1 else 0;
    run > 2 || Interrupted(run, s[1..])
  }

  function InARow(n: nat): seq<Byte>
    requires n <= 2
  {
    if n == 0 then [] else if n == 1 then [CTRL_C] else [CTRL_C, CTRL_C]
  }

  /** A byte that is no interrupt character breaks the row. */
  lemma RowIsBroken(n: nat, x: Byte, s: seq<Byte>)
    requires n <= 2 && x != CTRL_C
    ensures Uninterrupted(InARow(n) + [x] + s) <==> Uninterrupted(s)
  {
    var t := InARow(n) + [x] + s;
    if Uninterrupted(t) {
      forall i | 0 <= i < |s| - 2 ensures !(s[i] == CTRL_C && s[i + 1] == CTRL_C && s[i + 2] == CTRL_C) {
        assert t[n + 1 + i] == s[i] && t[n + 1 + i + 1] == s[i + 1] && t[n + 1 + i + 2] == s[i + 2];
      }
    }
    if Uninterrupted(s) {
      forall i | 0 <= i < |t| - 2 ensures !(t[i] == CTRL_C && t[i + 1] == CTRL_C && t[i + 2] == CTRL_C) {
        assert t[n] == x;
        if i > n {
          assert t[i] == s[i - n - 1] && t[i + 1] == s[i - n] && t[i + 2] == s[i - n + 1];
        }
      }
    }
  }

  lemma {:induction false} InterruptedIsThreeInARow(n: nat, s: seq<Byte>)
    requires n <= 2
    ensures Interrupted(n, s) <==> !Uninterrupted(InARow(n) + s)
    decreases |s|
  {
    if s == [] {
      assert InARow(n) + s == InARow(n);
    } else {
      assert s == [s[0]] + s[1..];
      if s[0] != CTRL_C {
        RowIsBroken(n, s[0], s[1..]);
        assert InARow(n) + s == InARow(n) + [s[0]] + s[1..];
        InterruptedIsThreeInARow(0, s[1..]);
        assert InARow(0) + s[1..] == s[1..];
      } else if n == 2 {
        var t := InARow(2) + s;
        assert t[0] == CTRL_C && t[1] == CTRL_C && t[2] == CTRL_C;
      } else {
        InterruptedIsThreeInARow(n + 1, s[1..]);
        assert InARow(n) + s == InARow(n + 1) + s[1..];
      }
    }
  }

  /** What is stored of the bytes heard: all from the first start character on. */
  function StoredOf(soh: Byte, kept: seq<Byte>, heard: seq<Byte>): seq<Byte>
    decreases |heard|
  {
    if heard == [] then kept
    else if kept == [] && heard[0] != soh then StoredOf(soh, kept, heard[1..])
    else kept + heard
  }

  /** How a read ends, given what it heard: on the third interrupt in a row, with a byte too many, with
      a finished packet, or because there are no more bytes. */
  predicate EndsRightly(setting: Setting, failure: int, o: Outcome, kept: seq<Byte>, heard: seq<Byte>, more: bool) {
    match o.answer
    case Exit => heard != [] && o.kept == StoredOf(setting.soh, kept, heard[..|heard| - 1])
    case Count(count) =>
      && o.kept == StoredOf(setting.soh, kept, heard) && count == |o.kept| > 0
      && Finished(setting, o.kept)
      && forall m :: |kept| < m < |o.kept| ==> !Finished(setting, o.kept[..m])
    case Failure(code) =>
      || (!more && code == failure && o.kept == StoredOf(setting.soh, kept, heard))
      || (code == -2 && heard != [] && |o.kept| >= setting.max
          && o.kept == StoredOf(setting.soh, kept, heard[..|heard| - 1]))
  }

  function HeardOf(setting: Setting, line: seq<Byte>, rest: seq<Byte>): seq<Byte>
    requires |rest| <= |line|
  {
    StripAll(setting.parity, line[..|line| - |rest|])
  }

  lemma HeardGrows(setting: Setting, line: seq<Byte>, rest: seq<Byte>)
    requires |rest| < |line|
    ensures HeardOf(setting, line, rest)
            == [Strip(setting.parity, line[0])] + HeardOf(setting, line[1..], rest)
  {
  }

  /** Where a read stops. */
  predicate StopsIn(line: seq<Byte>, rest: seq<Byte>) {
    |rest| <= |line| && rest == line[|line| - |rest|..]
  }

  /** What a read does with what it hears. */
  predicate HearsRightly(
    setting: Setting, failure: int, kept: seq<Byte>, interrupts: nat, o: Outcome, heard: seq<Byte>)
  {
    && (o.answer.Exit? <==> Interrupted(interrupts, heard))
    && (heard != [] ==> !Interrupted(interrupts, heard[..|heard| - 1]))
    && EndsRightly(setting, failure, o, kept, heard, o.rest != [])
  }

  predicate ReadRightly(
    setting: Setting, failure: int, line: seq<Byte>, kept: seq<Byte>, interrupts: nat, o: Outcome)
  {
    StopsIn(line, o.rest) && HearsRightly(setting, failure, kept, interrupts, o, HeardOf(setting, line, o.rest))
  }

  lemma HearsOneByteMore(setting: Setting, failure: int, kept: seq<Byte>, next: seq<Byte>, value: Byte,
                         interrupts: nat, run: nat, o: Outcome, heard: seq<Byte>)
    requires next == if kept == [] && value != setting.soh then kept else kept + [value]
    requires next != kept ==> !Finished(setting, next)
    requires run == (if value == CTRL_C then interrupts + 1 else 0) <= 2
    requires HearsRightly(setting, failure, next, run, o, heard)
    ensures HearsRightly(setting, failure, kept, interrupts, o, [value] + heard)
  {
    GoesOn(setting, failure, o, kept, next, value, heard);
    InterruptedStep(interrupts, value, heard);
    GoesOnUninterrupted(interrupts, value, heard);
  }

  lemma ReadsOneByteMore(setting: Setting, failure: int, line: seq<Byte>, kept: seq<Byte>, next: seq<Byte>,
                         value: Byte, interrupts: nat, run: nat, o: Outcome)
    requires line != [] && value == Strip(setting.parity, line[0])
    requires next == if kept == [] && value != setting.soh then kept else kept + [value]
    requires next != kept ==> !Finished(setting, next)
    requires run == (if value == CTRL_C then interrupts + 1 else 0) <= 2
    requires ReadRightly(setting, failure, line[1..], next, run, o)
    ensures ReadRightly(setting, failure, line, kept, interrupts, o)
  {
    HeardGrows(setting, line, o.rest);
    HearsOneByteMore(setting, failure, kept, next, value, interrupts, run, o, HeardOf(setting, line[1..], o.rest));
  }

  lemma {:induction false} ReceiveExactly(
    setting: Setting, failure: int, line: seq<Byte>, kept: seq<Byte>, interrupts: nat)
    requires interrupts <= 2
    ensures ReadRightly(setting, failure, line, kept, interrupts, Receive(setting, failure, line, kept, interrupts))
    decreases |line|
  {
    var o := Receive(setting, failure, line, kept, interrupts);
    if line != [] {
      var value := Strip(setting.parity, line[0]);
      var run := if value == CTRL_C then interrupts + 1 else 0;
      if run <= 2 && kept == [] && value != setting.soh {
        ReceiveExactly(setting, failure, line[1..], kept, run);
        ReadsOneByteMore(setting, failure, line, kept, kept, value, interrupts, run, o);
      } else if run <= 2 && |kept| < setting.max && !Finished(setting, kept + [value]) {
        ReceiveExactly(setting, failure, line[1..], kept + [value], run);
        ReadsOneByteMore(setting, failure, line, kept, kept + [value], value, interrupts, run, o);
      } else {
        EndsHere(setting, failure, line, kept, interrupts);
      }
    }
  }

  lemma EndsHere(setting: Setting, failure: int, line: seq<Byte>, kept: seq<Byte>, interrupts: nat)
    requires line != [] && interrupts <= 2
    requires var value := Strip(setting.parity, line[0]);
             var run := if value == CTRL_C then interrupts + 1 else 0;
             || run > 2
             || ((kept != [] || value == setting.soh)
                 && (|kept| >= setting.max || Finished(setting, kept + [value])))
    ensures ReadRightly(setting, failure, line, kept, interrupts, Receive(setting, failure, line, kept, interrupts))
  {
    var value := Strip(setting.parity, line[0]);
    HeardGrows(setting, line, line[1..]);
    assert HeardOf(setting, line, line[1..]) == [value];
    InterruptedStep(interrupts, value, []);
    assert [value] + [] == [value];
    StoredStep(setting.soh, kept, value, []);
  }

  /** Heard one byte earlier: it is skipped when nothing is stored yet, stored otherwise. */
  lemma StoredStep(soh: Byte, kept: seq<Byte>, value: Byte, heard: seq<Byte>)
    ensures StoredOf(soh, kept, [value] + heard)
            == StoredOf(soh, if kept == [] && value != soh then kept else kept + [value], heard)
  {
    assert ([value] + heard)[1..] == heard;
    assert kept + ([value] + heard) == (kept + [value]) + heard;
    assert (kept + [value]) + [] == kept + [value];
  }

  lemma PrefixStep(value: Byte, heard: seq<Byte>)
    requires heard != []
    ensures ([value] + heard)[..|heard|] == [value] + heard[..|heard| - 1]
  {
  }

  lemma InterruptedStep(interrupts: nat, value: Byte, heard: seq<Byte>)
    ensures var run := if value == CTRL_C then interrupts + 1 else 0;
            Interrupted(interrupts, [value] + heard) <==> run > 2 || Interrupted(run, heard)
  {
    assert ([value] + heard)[1..] == heard;
  }

  /** One byte more in front changes neither how a read ends nor where it is interrupted. */
  lemma GoesOn(setting: Setting, failure: int, o: Outcome, kept: seq<Byte>, next: seq<Byte>, value: Byte,
               heard: seq<Byte>)
    requires next == if kept == [] && value != setting.soh then kept else kept + [value]
    requires next != kept ==> !Finished(setting, next)
    requires EndsRightly(setting, failure, o, next, heard, o.rest != [])
    ensures EndsRightly(setting, failure, o, kept, [value] + heard, o.rest != [])
  {
    StoredStep(setting.soh, kept, value, heard);
    if heard != [] {
      PrefixStep(value, heard);
      StoredStep(setting.soh, kept, value, heard[..|heard| - 1]);
    }
    if o.answer.Count? {
      forall m | |kept| < m < |o.kept| ensures !Finished(setting, o.kept[..m]) {
        if m <= |next| {
          StoredBeginsWith(setting.soh, next, heard);
          assert o.kept[..m] == next;
        }
      }
    }
  }

  lemma {:induction false} StoredBeginsWith(soh: Byte, kept: seq<Byte>, heard: seq<Byte>)
    ensures |StoredOf(soh, kept, heard)| >= |kept| && StoredOf(soh, kept, heard)[..|kept|] == kept
    decreases |heard|
  {
    if heard != [] && kept == [] && heard[0] != soh {
      StoredBeginsWith(soh, kept, heard[1..]);
    }
  }

  lemma GoesOnUninterrupted(interrupts: nat, value: Byte, heard: seq<Byte>)
    requires (if value == CTRL_C then interrupts + 1 else 0) <= 2
    requires heard != [] ==> !Interrupted(if value == CTRL_C then interrupts + 1 else 0, heard[..|heard| - 1])
    ensures !Interrupted(interrupts, ([value] + heard)[..|heard|])
  {
    if heard == [] {
      assert ([value] + heard)[..0] == [];
    } else {
      PrefixStep(value, heard);
      InterruptedStep(interrupts, value, heard[..|heard| - 1]);
    }
  }

  lemma ThreeInARow(heard: seq<Byte>)
    ensures Interrupted(0, heard) <==> !Uninterrupted(heard)
  {
    InterruptedIsThreeInARow(0, heard);
    assert InARow(0) + heard == heard;
  }

  /** One read, from the beginning: it goes on to the first third interrupt in a row, the first byte too
      many, the end of the first packet, or the end of the line, whichever comes first. */
  lemma ReadsExactly(setting: Setting, failure: int, line: seq<Byte>)
    ensures var o := Receive(setting, failure, line, [], 0);
            && |o.rest| <= |line| && o.rest == line[|line| - |o.rest|..]
            && var heard := HeardOf(setting, line, o.rest);
               && (o.answer.Exit? <==> !Uninterrupted(heard))
               && (heard != [] ==> Uninterrupted(heard[..|heard| - 1]))
               && EndsRightly(setting, failure, o, [], heard, o.rest != [])
  {
    ReceiveExactly(setting, failure, line, [], 0);
    var heard := HeardOf(setting, line, Receive(setting, failure, line, [], 0).rest);
    ThreeInARow(heard);
    if heard != [] {
      ThreeInARow(heard[..|heard| - 1]);
    }
  }

  function Line(setting: Setting, segments: seq<Segment>): seq<Byte> {
    if segments == [] then [] else OnLine(setting, segments[0]) + Line(setting, segments[1..])
  }

  /** What `calls` successive reads answer. */
  function ReadPackets(setting: Setting, failure: int, line: seq<Byte>, calls: nat): seq<Outcome>
    decreases calls
  {
    if calls == 0 then [] else
      var o := Receive(setting, failure, line, [], 0);
      [o] + ReadPackets(setting, failure, o.rest, calls - 1)
  }

  function Received(setting: Setting, segments: seq<Segment>, rest: seq<Byte>): seq<Outcome> {
    if segments == [] then [] else
      var e := Encode(setting.soh, segments[0].packet);
      [Outcome(Count(|e|), e, Line(setting, segments[1..]) + rest)] + Received(setting, segments[1..], rest)
  }

  /** Any packets, short or long, under any parity, with any noise between them: successive reads
      answer with exactly those packets, in order, and leave what follows the last. */
  lemma {:induction false} PacketsComeThrough(setting: Setting, failure: int, segments: seq<Segment>, rest: seq<Byte>)
    requires setting.turn == NUL
    requires forall s :: s in segments ==> Readable(setting, s)
    ensures ReadPackets(setting, failure, Line(setting, segments) + rest, |segments|)
            == Received(setting, segments, rest)
  {
    if segments != [] {
      var after := Line(setting, segments[1..]) + rest;
      assert OnLine(setting, segments[0]) + after == Line(setting, segments) + rest;
      ReadsTheSegment(setting, failure, segments[0], after);
      PacketsComeThrough(setting, failure, segments[1..], rest);
    }
  }

  /** No two packets have the same bytes, so the reader learns the packet itself. */
  lemma EncodingIsInjective(soh: Byte, p: ValidPacket, q: ValidPacket)
    requires Encode(soh, p) == Encode(soh, q)
    ensures p == q
  {
    assert Encode(soh, p)[1] == Encode(soh, q)[1];
    var start := if p.Short? then 2 else 7;
    assert p.body == Encode(soh, p)[start..] && q.body == Encode(soh, q)[start..];
    assert Encode(soh, p)[2..] == Encode(soh, q)[2..];
  }

  lemma LineFrom(setting: Setting, segments: seq<Segment>, i: nat)
    requires i < |segments|
    ensures Line(setting, segments[i..]) == OnLine(setting, segments[i]) + Line(setting, segments[i + 1..])
  {
    assert segments[i..][1..] == segments[i + 1..];
  }

  /** Puts the packets on a line, each after its noise, unless a write fails. */
  method SendAll(setting: Setting, segments: seq<Segment>) returns (complete: bool, line: seq<Byte>)
    ensures complete ==> line == Line(setting, segments)
  {
    line := [];
    var sender := new Port([]);
    sender.parity := setting.parity;
    var i := 0;
    assert segments[0..] == segments;
    while i < |segments|
      invariant 0 <= i <= |segments|
      invariant fresh(sender) && sender.parity == setting.parity
      invariant line + Line(setting, segments[i..]) == Line(setting, segments)
    {
      var packet := Encode(setting.soh, segments[i].packet);
      var data := new Byte[|packet|](k requires 0 <= k < |packet| => packet[k]);
      assert data[..|packet|] == packet;
      var before := |sender.output|;
      var sent := sender.Ttol(data, |packet|, true);
      if sent != |packet| {
        return false, line;
      }
      LineFrom(setting, segments, i);
      line := line + (segments[i].noise + sender.output[before..]);
      i := i + 1;
    }
    return true, line;
  }

  /** What one side sends with `Ttol`, whatever pieces the pipe takes it in, the other side reads with
      `Ttinl`: exactly the packets, in order. */
  method Transfer(setting: Setting, segments: seq<Segment>, failure: int)
    returns (complete: bool, received: seq<seq<Byte>>)
    requires setting.turn == NUL && forall s :: s in segments ==> Readable(setting, s)
    ensures complete ==>
              && |received| == |segments|
              && forall i :: 0 <= i < |segments| ==> received[i] == Encode(setting.soh, segments[i].packet)
  {
    var line;
    complete, line := SendAll(setting, segments);
    received := [];
    if !complete {
      return;
    }
    var receiver := new Port(line);
    receiver.parity := setting.parity;
    var dest := new Byte[if setting.max < 1 then 1 else setting.max + 1](_ => NUL);
    var i := 0;
    assert segments[0..] == segments;
    while i < |segments|
      invariant 0 <= i <= |segments| && |received| == i
      invariant fresh(receiver) && receiver.parity == setting.parity
      invariant receiver.input == Line(setting, segments[i..])
      invariant forall j :: 0 <= j < i ==> received[j] == Encode(setting.soh, segments[j].packet)
    {
      assert segments[i] in segments;
      LineFrom(setting, segments, i);
      ReadsTheSegment(setting, failure, segments[i], Line(setting, segments[i + 1..]));
      var answer := receiver.Ttinl(dest, setting.max, setting.soh, NUL, failure);
      received := received + [dest[..answer.count]];
      i := i + 1;
    }
  }
}
