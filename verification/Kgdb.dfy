/**
  The GDB remote protocol of kernel/kgdb.c: memory as hexadecimal text, converted in the buffer
  that is still being read, and packets with a checksum and acknowledgements.
 */
module Kgdb {
  import opened Common

  const BUFMAX: nat := 1024
  const DOLLAR: byte := 0x24
  const HASH: byte := 0x23
  const PLUS: byte := 0x2b
  const MINUS: byte := 0x2d
  const BREAK: byte := 3

  // ---------------------------------------------------------------- hexadecimal digits

  /** `hexchars[d]` */
  function HexChar(d: nat): byte
    requires d < 16
  {
    if d < 10 then 0x30 + d else 0x61 + d - 10
  }

  /** `hex`: the value of a digit, or -1. */
  function Hex(c: byte): int {
    if 0x61 <= c <= 0x66 then c - 0x61 + 10
    else if 0x30 <= c <= 0x39 then c - 0x30
    else if 0x41 <= c <= 0x46 then c - 0x41 + 10
    else -1
  }

  lemma HexIs(d: nat)
    requires d < 16
    ensures Hex(HexChar(d)) == d && HexChar(d) != 0 && HexChar(d) != HASH && HexChar(d) != DOLLAR
  {
  }

  /** The digits are written with small letters and read with either; nothing else is a digit. */
  lemma HexDigits(c: byte, d: nat)
    requires d < 16
    ensures HexChar(d) == "0123456789abcdef"[d] as int
    ensures Hex(c) == d <==> c == "0123456789abcdef"[d] as int || c == "0123456789ABCDEF"[d] as int
  {
  }

  /** Two digits for every byte. */
  function Text(mem: seq<byte>): (t: seq<byte>)
    ensures |t| == 2 * |mem|
  {
    if mem == [] then [] else Text(mem[..|mem| - 1]) + [HexChar(mem[|mem| - 1] / 16), HexChar(mem[|mem| - 1] % 16)]
  }

  lemma {:induction false} TextAt(mem: seq<byte>, k: nat)
    requires k < |mem|
    ensures Text(mem)[2 * k] == HexChar(mem[k] / 16) && Text(mem)[2 * k + 1] == HexChar(mem[k] % 16)
  {
    if k < |mem| - 1 { TextAt(mem[..|mem| - 1], k); }
  }

  // ---------------------------------------------------------------- conversion in place

  /** `kgdb_mem2hex`, lines 316-339: the raw bytes wait in the upper half of the buffer that the digits fill. */
  method MemToHex(mem: seq<byte>, buf: array<byte>)
    requires 2 * |mem| + 1 <= buf.Length
    modifies buf
    ensures buf[..2 * |mem|] == Text(mem) && buf[2 * |mem|] == 0
  {
    var count := |mem|;
    var i := 0;
    while i < count
      invariant 0 <= i <= count
      invariant forall k :: 0 <= k < i ==> buf[count + k] == mem[k]
    {
      buf[count + i] := mem[i];
      i := i + 1;
    }
    i := 0;
    while i < count
      invariant 0 <= i <= count
      invariant buf[..2 * i] == Text(mem[..i])
      invariant forall k :: i <= k < count ==> buf[count + k] == mem[k]
    {
      var b := buf[count + i];
      buf[2 * i] := HexChar(b / 16);
      buf[2 * i + 1] := HexChar(b % 16);
      assert mem[..i + 1][..i] == mem[..i];
      assert buf[..2 * i + 2] == buf[..2 * i] + [buf[2 * i], buf[2 * i + 1]];
      i := i + 1;
    }
    assert mem[..count] == mem;
    buf[2 * count] := 0;
  }

  /** `x | h << 4` in eight bits, where `x` and `h` are what `hex` returned: a digit, or all ones. */
  function OrHigh(x: byte, h: int): byte
    requires -1 <= h < 16
  {
    if x < 16 then x + h * 16 % 256 else 255
  }

  /** The byte that two digits make. */
  function Pair(high: byte, low: byte): byte {
    OrHigh(Hex(low) % 256, Hex(high))
  }

  /** The bytes of a text, by position. */
  ghost predicate Raw(text: seq<byte>, mem: seq<byte>) {
    |text| == 2 * |mem| && forall k :: 0 <= k < |mem| ==> mem[k] == Pair(text[2 * k], text[2 * k + 1])
  }

  /** `kgdb_hex2mem`, lines 371-390: the bytes are made in the upper half, from the last one down. */
  method HexToMem(buf: array<byte>, count: nat) returns (mem: seq<byte>)
    requires 2 * count <= buf.Length
    modifies buf
    ensures Raw(old(buf[..2 * count]), mem)
  {
    ghost var text := buf[..2 * count];
    var raw := 2 * count;
    var hex := raw - 1;
    ghost var j := count;
    while hex >= 0
      invariant 0 <= j <= count && hex == 2 * j - 1 && raw == count + j
      invariant forall k :: 0 <= k < 2 * j ==> buf[k] == text[k]
      invariant forall k :: j <= k < count ==> buf[count + k] == Pair(text[2 * k], text[2 * k + 1])
    {
      j := j - 1;
      raw := raw - 1;
      buf[raw] := Hex(buf[hex]) % 256;
      hex := hex - 1;
      buf[raw] := OrHigh(buf[raw], Hex(buf[hex]));
      hex := hex - 1;
    }
    mem := buf[raw..raw + count];
  }

  /** The text of some memory is the text of no other. */
  lemma RawText(mem: seq<byte>, mem': seq<byte>)
    requires Raw(Text(mem), mem')
    ensures mem' == mem
  {
    forall k | 0 <= k < |mem| ensures mem'[k] == mem[k] {
      TextAt(mem, k);
      HexIs(mem[k] / 16);
      HexIs(mem[k] % 16);
    }
  }

  // ---------------------------------------------------------------- packets

  function Sum(data: seq<byte>): byte {
    if data == [] then 0 else (Sum(data[..|data| - 1]) + data[|data| - 1]) % 256
  }

  /** `$<data>#<checksum>` */
  function Frame(data: seq<byte>): seq<byte> {
    [DOLLAR] + data + [HASH, HexChar(Sum(data) / 16), HexChar(Sum(data) % 16)]
  }

  /** The checksum that two characters denote. */
  function Denoted(high: byte, low: byte): byte {
    (Hex(high) * 16 % 256 + Hex(low)) % 256
  }

  lemma DenotedSum(s: byte)
    ensures Denoted(HexChar(s / 16), HexChar(s % 16)) == s
  {
    HexIs(s / 16);
    HexIs(s % 16);
  }

  // ---------------------------------------------------------------- sending

  /** What the sender has written and how much of the replies it has read; `done` when it has returned. */
  datatype Sent = Sent(out: seq<byte>, pos: nat, done: bool)

  /** `put_packet` as a function of the replies that arrive: the frame is repeated until it is acknowledged. */
  function Send(data: seq<byte>, replies: seq<byte>, pos: nat, out: seq<byte>): Sent
    requires pos <= |replies|
    decreases |replies| - pos
  {
    var out' := out + Frame(data);
    if pos == |replies| then Sent(out', pos, false)
    else
      var p := if replies[pos] == BREAK then pos + 1 else pos;
      if p == |replies| then Sent(out', p, false)
      else if replies[p] == PLUS then Sent(out', p + 1, true)
      else if replies[p] == DOLLAR then Sent(out' + [MINUS], p + 1, true)
      else Send(data, replies, p + 1, out')
  }

  /** Lines 262-275: the frame around the text in the buffer, which ends in a null character. */
  method WriteFrame(buffer: array<byte>, out0: seq<byte>, ghost n: nat) returns (out: seq<byte>)
    requires n < buffer.Length && buffer[n] == 0 && forall k :: 0 <= k < n ==> buffer[k] != 0
    ensures out == out0 + Frame(buffer[..n])
  {
    out := out0 + [DOLLAR];
    var checksum: byte := 0;
    var count := 0;
    while buffer[count] != 0
      invariant 0 <= count <= n && out == out0 + [DOLLAR] + buffer[..count] && checksum == Sum(buffer[..count])
      decreases n - count
    {
      out := out + [buffer[count]];
      checksum := (checksum + buffer[count]) % 256;
      assert buffer[..count + 1][..count] == buffer[..count];
      count := count + 1;
    }
    out := out + [HASH];
    out := out + [HexChar(checksum / 16)];
    out := out + [HexChar(checksum % 16)];
    assert buffer[..n] == buffer[..count];
  }

  /** `put_packet`, lines 253-302; it is `done` unless the replies run out. */
  method PutPacket(buffer: array<byte>, replies: seq<byte>, ghost n: nat) returns (s: Sent)
    requires n < buffer.Length && buffer[n] == 0 && forall k :: 0 <= k < n ==> buffer[k] != 0
    ensures s == Send(buffer[..n], replies, 0, [])
  {
    var out, pos := [], 0;
    while true
      invariant pos <= |replies|
      invariant Send(buffer[..n], replies, 0, []) == Send(buffer[..n], replies, pos, out)
      decreases |replies| - pos
    {
      out := WriteFrame(buffer, out, n);
      if pos == |replies| {
        return Sent(out, pos, false);
      }
      var ch := replies[pos];
      pos := pos + 1;
      if ch == BREAK {
        if pos == |replies| {
          return Sent(out, pos, false);
        }
        ch := replies[pos];
        pos := pos + 1;
      }
      if ch == PLUS {
        return Sent(out, pos, true);
      }
      if ch == DOLLAR {
        return Sent(out + [MINUS], pos, true);
      }
    }
  }

  // ---------------------------------------------------------------- receiving

  /** What the receiver accepted, how much of the line it has read and what it has replied. */
  datatype Got = Got(data: seq<byte>, pos: nat, replies: seq<byte>) | Waiting(replies: seq<byte>)

  /** The position of the next start character. */
  function Start(line: seq<byte>, pos: nat): (p: nat)
    requires pos <= |line|
    ensures pos <= p <= |line| && (p < |line| ==> line[p] == DOLLAR)
    ensures forall k :: pos <= k < p ==> line[k] != DOLLAR
    decreases |line| - pos
  {
    if pos == |line| || line[pos] == DOLLAR then pos else Start(line, pos + 1)
  }

  /** The end of the data: the next `#`, or `limit` characters on. */
  function DataEnd(line: seq<byte>, pos: nat, limit: nat): (p: nat)
    requires pos <= |line|
    ensures pos <= p <= |line| && p <= pos + limit && (p < |line| && p < pos + limit ==> line[p] == HASH)
    ensures forall k :: pos <= k < p ==> line[k] != HASH
    decreases |line| - pos
  {
    if limit == 0 || pos == |line| || line[pos] == HASH then pos else DataEnd(line, pos + 1, limit - 1)
  }

  /** One packet: accepted or refused, with the reply to it and where the next one may start. */
  datatype Try = Try(data: seq<byte>, good: bool, pos: nat, reply: seq<byte>) | Short

  function Attempt(line: seq<byte>, pos: nat, limit: nat): (t: Try)
    requires pos <= |line|
    ensures t.Try? ==> pos < t.pos <= |line|
  {
    var s := Start(line, pos);
    if s == |line| then Short
    else
      var e := DataEnd(line, s + 1, limit);
      var data := line[s + 1..e];
      if e == s + 1 + limit then Try(data, Sum(data) == 255, e, [])
      else if e + 2 >= |line| then Short
      else
        var good := Sum(data) == Denoted(line[e + 1], line[e + 2]);
        Try(data, good, e + 3, [if good then PLUS else MINUS])
  }

  /** `get_packet` as a function of what arrives on the line: packets are read until one is accepted. */
  function Receive(line: seq<byte>, pos: nat, limit: nat, replies: seq<byte>): Got
    requires pos <= |line|
    decreases |line| - pos
  {
    var t := Attempt(line, pos, limit);
    if t.Short? then Waiting(replies)
    else if t.good then Got(t.data, t.pos, replies + t.reply)
    else Receive(line, t.pos, limit, replies + t.reply)
  }

  /** The first `count` characters have been read into `data`. */
  ghost predicate ReadSoFar(line: seq<byte>, pos: nat, limit: nat, count: nat, data: seq<byte>, sum: byte) {
    && count <= limit && pos + count <= |line| && data == line[pos..pos + count] && sum == Sum(data)
    && DataEnd(line, pos, limit) == DataEnd(line, pos + count, limit - count)
  }

  lemma ReadOne(line: seq<byte>, pos: nat, limit: nat, count: nat, data: seq<byte>, sum: byte, data': seq<byte>)
    requires ReadSoFar(line, pos, limit, count, data, sum) && count < limit && pos + count < |line|
    requires line[pos + count] != HASH && data' == data + [line[pos + count]]
    ensures ReadSoFar(line, pos, limit, count + 1, data', (sum + line[pos + count]) % 256)
  {
    assert data'[..count] == data;
    assert line[pos..pos + count + 1] == data';
  }

  /** Lines 223-231: data into the buffer, at most `limit` characters; `ok` unless the line ends first. */
  method ReadData(line: seq<byte>, pos: nat, limit: nat, buffer: array<byte>) returns (count: nat, sum: byte, ok: bool)
    requires pos <= |line| && limit < buffer.Length
    modifies buffer
    ensures var e := DataEnd(line, pos, limit);
      && count == e - pos && buffer[..count] == line[pos..e] && sum == Sum(line[pos..e])
      && ok == (e == pos + limit || e < |line|)
  {
    count, sum := 0, 0;
    while count < limit
      invariant count <= limit && ReadSoFar(line, pos, limit, count, buffer[..count], sum)
    {
      if pos + count == |line| {
        return count, sum, false;
      }
      var ch := line[pos + count];
      if ch == HASH {
        break;
      }
      ghost var data := buffer[..count];
      buffer[count] := ch;
      assert buffer[..count + 1] == data + [ch];
      ReadOne(line, pos, limit, count, data, sum, buffer[..count + 1]);
      sum := (sum + ch) % 256;
      count := count + 1;
    }
    ok := true;
  }

  method FindStart(line: seq<byte>, pos: nat) returns (p: nat)
    requires pos <= |line|
    ensures p == Start(line, pos)
  {
    p := pos;
    while p < |line| && line[p] != DOLLAR
      invariant pos <= p <= |line| && Start(line, pos) == Start(line, p)
    {
      p := p + 1;
    }
  }

  /** Lines 207-245: one round of the loop. */
  method ReadPacket(line: seq<byte>, pos: nat, limit: nat, buffer: array<byte>) returns (t: Try)
    requires 0 < limit < buffer.Length && pos <= |line|
    modifies buffer
    ensures t == Attempt(line, pos, limit)
    ensures t.Try? ==> |t.data| <= limit && buffer[..|t.data|] == t.data && buffer[|t.data|] == 0
  {
    var s := FindStart(line, pos);
    if s == |line| {
      return Short;
    }
    var count, checksum, ok := ReadData(line, s + 1, limit, buffer);
    if !ok {
      return Short;
    }
    buffer[count] := 0;
    var e := s + 1 + count;
    if count == limit {
      t := Try(buffer[..count], checksum == 255, e, []);
    } else {
      if e + 2 >= |line| {
        return Short;
      }
      var xmitcsum := Denoted(line[e + 1], line[e + 2]);
      t := Try(buffer[..count], checksum == xmitcsum, e + 3, [if checksum != xmitcsum then MINUS else PLUS]);
    }
  }

  /** `get_packet`, lines 199-247, until the line has nothing more to read. */
  method GetPacket(line: seq<byte>, limit: nat, buffer: array<byte>) returns (g: Got)
    requires 0 < limit < buffer.Length
    modifies buffer
    ensures g == Receive(line, 0, limit, [])
    ensures g.Got? ==> |g.data| <= limit && buffer[..|g.data|] == g.data && buffer[|g.data|] == 0
  {
    var pos: nat, replies: seq<byte> := 0, [];
    while true
      invariant pos <= |line| && Receive(line, 0, limit, []) == Receive(line, pos, limit, replies)
      decreases |line| - pos
    {
      var t := ReadPacket(line, pos, limit, buffer);
      if t.Short? {
        return Waiting(replies);
      }
      replies := replies + t.reply;
      pos := t.pos;
      if t.good {
        return Got(t.data, pos, replies);
      }
    }
  }

  // ---------------------------------------------------------------- what the two sides agree on

  /** Data that a frame can carry: no end mark, and room for it in the buffer. */
  ghost predicate Carried(data: seq<byte>, limit: nat) {
    |data| < limit && HASH !in data
  }

  /** A packet that arrives with a checksum that does not match. */
  ghost predicate Damaged(frame: seq<byte>, limit: nat) {
    && |frame| >= 4 && frame[0] == DOLLAR && frame[|frame| - 3] == HASH && Carried(frame[1..|frame| - 3], limit)
    && Sum(frame[1..|frame| - 3]) != Denoted(frame[|frame| - 2], frame[|frame| - 1])
  }

  lemma {:induction false} StartAfter(line: seq<byte>, pos: nat, s: nat)
    requires pos <= s < |line| && line[s] == DOLLAR && forall k :: pos <= k < s ==> line[k] != DOLLAR
    ensures Start(line, pos) == s
    decreases s - pos
  {
    if pos < s { StartAfter(line, pos + 1, s); }
  }

  lemma {:induction false} DataEndAt(line: seq<byte>, pos: nat, limit: nat, e: nat)
    requires pos <= e < |line| && e < pos + limit && line[e] == HASH && forall k :: pos <= k < e ==> line[k] != HASH
    ensures DataEnd(line, pos, limit) == e
    decreases e - pos
  {
    if pos < e { DataEndAt(line, pos + 1, limit - 1, e); }
  }

  /** There is a packet at `s`. */
  ghost predicate PacketAt(line: seq<byte>, s: nat, data: seq<byte>, high: byte, low: byte) {
    && s + |data| + 4 <= |line| && line[s] == DOLLAR && line[s + 1..s + 1 + |data|] == data
    && line[s + 1 + |data|] == HASH && line[s + 2 + |data|] == high && line[s + 3 + |data|] == low
    && forall k :: s + 1 <= k < s + 1 + |data| ==> line[k] != HASH
  }

  lemma Parts(line: seq<byte>, s: nat, data: seq<byte>, high: byte, low: byte)
    requires s + |data| + 4 <= |line| && line[s..s + |data| + 4] == [DOLLAR] + data + [HASH, high, low] && HASH !in data
    ensures PacketAt(line, s, data, high, low)
  {
    var f, n := line[s..s + |data| + 4], |data|;
    assert f[0] == DOLLAR && f[n + 1] == HASH && f[n + 2] == high && f[n + 3] == low;
    forall k | 0 <= k < n ensures line[s + 1 + k] == data[k] {
      assert f[1 + k] == data[k];
      assert line[s + 1 + k] == f[1 + k];
    }
    assert line[s + 1..s + 1 + n] == data;
    forall k | s + 1 <= k < s + 1 + n ensures line[k] == data[k - s - 1] {
      assert line[s + 1 + (k - s - 1)] == data[k - s - 1];
    }
  }

  lemma AttemptFrom(line: seq<byte>, pos: nat, limit: nat, s: nat, e: nat)
    requires pos <= |line| && Start(line, pos) == s && s < |line| && DataEnd(line, s + 1, limit) == e
      && e < s + 1 + limit && e + 2 < |line|
    ensures var good := Sum(line[s + 1..e]) == Denoted(line[e + 1], line[e + 2]);
      Attempt(line, pos, limit) == Try(line[s + 1..e], good, e + 3, [if good then PLUS else MINUS])
  {
  }

  /** A packet with data and two checksum characters, after any noise. */
  lemma AttemptIs(line: seq<byte>, pos: nat, limit: nat, s: nat, data: seq<byte>, high: byte, low: byte)
    requires PacketAt(line, s, data, high, low) && |data| < limit && pos <= s && forall k :: pos <= k < s ==>
      line[k] != DOLLAR
    ensures var good := Sum(data) == Denoted(high, low);
      Attempt(line, pos, limit) == Try(data, good, s + |data| + 4, [if good then PLUS else MINUS])
  {
    StartAfter(line, pos, s);
    DataEndAt(line, s + 1, limit, s + 1 + |data|);
    AttemptFrom(line, pos, limit, s, s + 1 + |data|);
  }

  lemma ReceiveStep(line: seq<byte>, pos: nat, limit: nat, replies: seq<byte>, t: Try)
    requires pos <= |line| && t == Attempt(line, pos, limit) && t.Try?
    ensures Receive(line, pos, limit, replies) == if t.good then Got(t.data, t.pos, replies + t.reply)
      else Receive(line, t.pos, limit, replies + t.reply)
  {
  }

  /** A frame that arrives intact, after any noise, is accepted, and exactly its data is delivered. */
  lemma FrameReceived(line: seq<byte>, pos: nat, limit: nat, s: nat, data: seq<byte>, replies: seq<byte>)
    requires Carried(data, limit) && pos <= s && s + |Frame(data)| <= |line| && forall k :: pos <= k < s ==>
      line[k] != DOLLAR
    requires line[s..s + |Frame(data)|] == Frame(data)
    ensures Receive(line, pos, limit, replies) == Got(data, s + |Frame(data)|, replies + [PLUS])
  {
    var high, low := HexChar(Sum(data) / 16), HexChar(Sum(data) % 16);
    DenotedSum(Sum(data));
    Parts(line, s, data, high, low);
    AttemptIs(line, pos, limit, s, data, high, low);
    ReceiveStep(line, pos, limit, replies, Attempt(line, pos, limit));
  }

  function Concat(frames: seq<seq<byte>>): seq<byte> {
    if frames == [] then [] else frames[0] + Concat(frames[1..])
  }

  function Repeat<T>(x: T, n: nat): (r: seq<T>)
    ensures |r| == n
  {
    if n == 0 then [] else [x] + Repeat(x, n - 1)
  }

  lemma RepeatShift(replies: seq<byte>, n: nat)
    requires n > 0
    ensures replies + [MINUS] + Repeat(MINUS, n - 1) == replies + Repeat(MINUS, n)
  {
  }

  lemma DamagedRefused(line: seq<byte>, pos: nat, limit: nat, frame: seq<byte>)
    requires Damaged(frame, limit) && pos + |frame| <= |line| && line[pos..pos + |frame|] == frame
    ensures var t := Attempt(line, pos, limit); t.Try? && !t.good && t.pos == pos + |frame| && t.reply == [MINUS]
  {
    var n := |frame|;
    var data := frame[1..n - 3];
    assert frame == [DOLLAR] + data + [HASH, frame[n - 2], frame[n - 1]];
    Parts(line, pos, data, frame[n - 2], frame[n - 1]);
    AttemptIs(line, pos, limit, pos, data, frame[n - 2], frame[n - 1]);
  }

  /** The frames follow each other from `pos` to `end`. */
  ghost predicate Layout(line: seq<byte>, pos: nat, frames: seq<seq<byte>>, end: nat)
    decreases |frames|
  {
    if frames == [] then pos == end <= |line|
    else
      pos + |frames[0]| <= |line| && line[pos..pos + |frames[0]|] == frames[0]
      && Layout(line, pos + |frames[0]|, frames[1..], end)
  }

  ghost predicate RefusedAt(line: seq<byte>, pos: nat, limit: nat, next: nat)
    requires pos <= |line|
  {
    var t := Attempt(line, pos, limit);
    t.Try? && !t.good && t.pos == next && t.reply == [MINUS]
  }

  /** `n` packets from `pos` to `end` are refused. */
  ghost predicate Chain(line: seq<byte>, pos: nat, limit: nat, n: nat, end: nat)
    requires pos <= |line|
    decreases n
  {
    if n == 0 then pos == end
    else exists next: nat :: next <= |line| && RefusedAt(line, pos, limit, next) && Chain(line, next, limit, n - 1, end)
  }

  lemma Refused(line: seq<byte>, pos: nat, limit: nat, replies: seq<byte>, next: nat)
    requires pos <= |line| && next <= |line| && RefusedAt(line, pos, limit, next)
    ensures Receive(line, pos, limit, replies) == Receive(line, next, limit, replies + [MINUS])
  {
  }

  /** Every refused packet is answered once. */
  lemma {:induction false} AllRefused(line: seq<byte>, pos: nat, limit: nat, n: nat, end: nat, replies: seq<byte>)
    requires pos <= |line| && Chain(line, pos, limit, n, end)
    ensures end <= |line| && Receive(line, pos, limit, replies) == Receive(line, end, limit, replies + Repeat(MINUS, n))
    decreases n
  {
    if n == 0 {
      assert replies + Repeat(MINUS, 0) == replies;
    } else {
      var next: nat :| next <= |line| && RefusedAt(line, pos, limit, next) && Chain(line, next, limit, n - 1, end);
      Refused(line, pos, limit, replies, next);
      AllRefused(line, next, limit, n - 1, end, replies + [MINUS]);
      RepeatShift(replies, n);
    }
  }

  /** The receiver refuses damaged packets. */
  lemma {:induction false} LayoutChain(line: seq<byte>, pos: nat, limit: nat, bad: seq<seq<byte>>, end: nat)
    requires (forall k :: 0 <= k < |bad| ==> Damaged(bad[k], limit)) && Layout(line, pos, bad, end) && pos <= |line|
    ensures Chain(line, pos, limit, |bad|, end)
    decreases |bad|
  {
    if bad != [] {
      var next := pos + |bad[0]|;
      DamagedRefused(line, pos, limit, bad[0]);
      LayoutChain(line, next, limit, bad[1..], end);
      assert RefusedAt(line, pos, limit, next);
    }
  }

  lemma {:induction false} LayoutConcat(line: seq<byte>, pos: nat, frames: seq<seq<byte>>, rest: seq<byte>)
    requires pos <= |line| && line[pos..] == Concat(frames) + rest
    ensures Layout(line, pos, frames, |line| - |rest|) && line[|line| - |rest|..] == rest
    decreases |frames|
  {
    if frames != [] {
      var f, more := frames[0], Concat(frames[1..]);
      assert f + more + rest == f + (more + rest);
      Front(line, pos, f, more + rest);
      LayoutConcat(line, pos + |f|, frames[1..], rest);
    } else {
      assert Concat(frames) + rest == rest;
      Front(line, pos, [], rest);
    }
  }

  lemma Front(line: seq<byte>, pos: nat, f: seq<byte>, rest: seq<byte>)
    requires pos <= |line| && line[pos..] == f + rest
    ensures pos + |f| + |rest| == |line| && line[pos..pos + |f|] == f && line[pos + |f|..] == rest
  {
    var u := line[pos..];
    assert line[pos..pos + |f|] == u[..|f|] == f;
    assert line[pos + |f|..] == u[|f|..] == rest;
  }

  /** After `n` refused packets, the frame is accepted. */
  lemma AcceptedAfter(line: seq<byte>, limit: nat, n: nat, s: nat, data: seq<byte>)
    requires Chain(line, 0, limit, n, s) && s <= |line|
      && Receive(line, s, limit, Repeat(MINUS, n)) == Got(data, |line|, Repeat(MINUS, n) + [PLUS])
    ensures Receive(line, 0, limit, []) == Got(data, |line|, Repeat(MINUS, n) + [PLUS])
  {
    AllRefused(line, 0, limit, n, s, []);
    assert [] + Repeat(MINUS, n) == Repeat(MINUS, n);
  }

  /** The receiver refuses every damaged packet and accepts the good one behind them. */
  lemma ReceiveAfter(limit: nat, bad: seq<seq<byte>>, data: seq<byte>)
    requires Carried(data, limit) && (forall k :: 0 <= k < |bad| ==> Damaged(bad[k], limit))
    ensures var line := Concat(bad) + Frame(data);
      Receive(line, 0, limit, []) == Got(data, |line|, Repeat(MINUS, |bad|) + [PLUS])
  {
    var line, s := Concat(bad) + Frame(data), |Concat(bad)|;
    DamagedChain(limit, bad, Frame(data));
    FrameAt(line, s, limit, data, Repeat(MINUS, |bad|));
    AcceptedAfter(line, limit, |bad|, s, data);
  }

  lemma DamagedChain(limit: nat, bad: seq<seq<byte>>, rest: seq<byte>)
    requires forall k :: 0 <= k < |bad| ==> Damaged(bad[k], limit)
    ensures Chain(Concat(bad) + rest, 0, limit, |bad|, |Concat(bad)|)
  {
    var line := Concat(bad) + rest;
    assert line[0..] == line;
    LayoutConcat(line, 0, bad, rest);
    LayoutChain(line, 0, limit, bad, |Concat(bad)|);
  }

  lemma FrameAt(line: seq<byte>, s: nat, limit: nat, data: seq<byte>, replies: seq<byte>)
    requires Carried(data, limit) && s <= |line| && line[s..] == Frame(data)
    ensures Receive(line, s, limit, replies) == Got(data, |line|, replies + [PLUS])
  {
    assert line[s..s + |Frame(data)|] == line[s..];
    FrameReceived(line, s, limit, s, data, replies);
  }

  /** One reply: a character, perhaps after a break. */
  ghost predicate Reply(u: seq<byte>, ch: byte) {
    (u == [ch] && ch != BREAK) || u == [BREAK, ch]
  }

  /** A reply that neither acknowledges a frame nor begins a new packet. */
  ghost predicate AsksAgain(u: seq<byte>) {
    exists ch :: Reply(u, ch) && ch != PLUS && ch != DOLLAR
  }

  lemma SendReply(data: seq<byte>, replies: seq<byte>, pos: nat, out: seq<byte>, u: seq<byte>, ch: byte)
    requires Reply(u, ch) && pos + |u| <= |replies| && replies[pos..pos + |u|] == u
    ensures var out', next := out + Frame(data), pos + |u|;
      Send(data, replies, pos, out) == if ch == PLUS then Sent(out', next, true)
        else if ch == DOLLAR then Sent(out' + [MINUS], next, true) else Send(data, replies, next, out')
  {
    assert replies[pos] == u[0];
    if |u| == 2 { assert replies[pos + 1] == u[1]; }
  }

  lemma Once(f: seq<byte>)
    ensures Concat(Repeat(f, 1)) == f
  {
    assert Repeat(f, 1)[1..] == [] && f + [] == f;
  }

  lemma SendLast(data: seq<byte>, replies: seq<byte>, pos: nat, out: seq<byte>, u: seq<byte>, ch: byte)
    requires pos <= |replies| && replies[pos..] == u && Reply(u, ch) && (ch == PLUS || ch == DOLLAR)
    ensures Send(data, replies, pos, out) == Sent(out + Concat(Repeat(Frame(data), 1))
      + (if ch == DOLLAR then [MINUS] else []), |replies|, true)
  {
    assert replies[pos..pos + |u|] == replies[pos..];
    SendReply(data, replies, pos, out, u, ch);
    Once(Frame(data));
  }

  /**
    The sender sends the frame once for every reply, whatever it is, until one acknowledges it, or begins a new packet,
    to which it replies with a minus sign.
   */
  lemma {:induction false} SendUntil(data: seq<byte>, replies: seq<byte>, pos: nat, out: seq<byte>,
                                     again: seq<seq<byte>>, u: seq<byte>, ch: byte)
    requires pos <= |replies| && replies[pos..] == Concat(again) + u && Reply(u, ch) && (ch == PLUS || ch == DOLLAR)
    requires forall k :: 0 <= k < |again| ==> AsksAgain(again[k])
    ensures Send(data, replies, pos, out) == Sent(out + Concat(Repeat(Frame(data), |again| + 1))
      + (if ch == DOLLAR then [MINUS] else []), |replies|, true)
    decreases |again|
  {
    var f := Frame(data);
    if again == [] {
      assert Concat(again) + u == u;
      SendLast(data, replies, pos, out, u, ch);
    } else {
      var v, rest := again[0], again[1..];
      var x :| Reply(v, x) && x != PLUS && x != DOLLAR;
      assert v + Concat(rest) + u == v + (Concat(rest) + u);
      Front(replies, pos, v, Concat(rest) + u);
      SendReply(data, replies, pos, out, v, x);
      SendUntil(data, replies, pos + |v|, out + f, rest, u, ch);
      assert Repeat(f, |again| + 1)[1..] == Repeat(f, |again|);
      assert out + f + Concat(Repeat(f, |again|)) == out + (f + Concat(Repeat(f, |again|)));
    }
  }

  /** As long as no reply does either, it goes on. */
  lemma {:induction false} SendOn(data: seq<byte>, replies: seq<byte>, pos: nat, out: seq<byte>, again: seq<seq<byte>>)
    requires pos <= |replies| && replies[pos..] == Concat(again) && forall k :: 0 <= k < |again| ==> AsksAgain(again[k])
    ensures Send(data, replies, pos, out) == Sent(out + Concat(Repeat(Frame(data), |again| + 1)), |replies|, false)
    decreases |again|
  {
    var f := Frame(data);
    if again == [] {
      Once(f);
    } else {
      var v, rest := again[0], again[1..];
      var x :| Reply(v, x) && x != PLUS && x != DOLLAR;
      Front(replies, pos, v, Concat(rest));
      SendReply(data, replies, pos, out, v, x);
      SendOn(data, replies, pos + |v|, out + f, rest);
      assert Repeat(f, |again| + 1)[1..] == Repeat(f, |again|);
      assert out + f + Concat(Repeat(f, |again|)) == out + (f + Concat(Repeat(f, |again|)));
    }
  }

  lemma {:induction false} RefusalsConcat(n: nat)
    ensures Concat(Repeat([MINUS], n)) == Repeat(MINUS, n)
    ensures forall k :: 0 <= k < n ==> Repeat([MINUS], n)[k] == [MINUS]
  {
    if n > 0 {
      RefusalsConcat(n - 1);
      assert Repeat([MINUS], n)[1..] == Repeat([MINUS], n - 1);
    }
  }

  /**
    However many packets are damaged before one arrives intact, the receiver delivers exactly the data and the sender,
    given the receiver's replies, sends one packet for each of them and returns.
   */
  lemma Conversation(data: seq<byte>, limit: nat, bad: seq<seq<byte>>)
    requires Carried(data, limit) && forall k :: 0 <= k < |bad| ==> Damaged(bad[k], limit)
    ensures var line := Concat(bad) + Frame(data);
      var g := Receive(line, 0, limit, []);
      && g.Got? && g.data == data && g.pos == |line|
      && Send(data, g.replies, 0, []) == Sent(Concat(Repeat(Frame(data), |bad| + 1)), |g.replies|, true)
  {
    ReceiveAfter(limit, bad, data);
    var replies := Repeat(MINUS, |bad|) + [PLUS];
    assert replies[0..] == replies;
    var again := Repeat([MINUS], |bad|);
    RefusalsConcat(|bad|);
    assert Reply([MINUS], MINUS) && Reply([PLUS], PLUS);
    SendUntil(data, replies, 0, [], again, [PLUS], PLUS);
    assert [] + Concat(Repeat(Frame(data), |bad| + 1)) + [] == Concat(Repeat(Frame(data), |bad| + 1));
  }

  // ---------------------------------------------------------------- what is accepted

  /** Whatever is delivered with an acknowledgement came with its checksum; the one exception has no end mark. */
  lemma {:induction false} AcceptedIs(line: seq<byte>, pos: nat, limit: nat, replies: seq<byte>)
    requires pos <= |line|
    ensures var g := Receive(line, pos, limit, replies);
      g.Got? ==> (exists s: nat :: pos <= s && Delivered(line, s, limit, g.data, g.pos))
    decreases |line| - pos
  {
    var t := Attempt(line, pos, limit);
    if t.Try? {
      if t.good {
        assert Delivered(line, Start(line, pos), limit, t.data, t.pos);
      } else {
        AcceptedIs(line, t.pos, limit, replies + t.reply);
      }
    }
  }

  /** The data between a start character at `s` and `end`, with its checksum, or of full length and with the sum 255. */
  ghost predicate Delivered(line: seq<byte>, s: nat, limit: nat, data: seq<byte>, end: nat) {
    var e := s + 1 + |data|;
    && end <= |line| && e <= end && line[s] == DOLLAR && line[s + 1..e] == data && HASH !in data
    && if |data| < limit then end == e + 3 && line[e] == HASH && Sum(data) == Denoted(line[e + 1], line[e + 2])
       else |data| == limit && end == e && Sum(data) == 255
  }

  lemma OverlongAttempt(line: seq<byte>, pos: nat, limit: nat, s: nat, data: seq<byte>)
    requires pos <= s && s + 1 + limit <= |line| && line[s] == DOLLAR && forall k :: pos <= k < s ==> line[k] != DOLLAR
    requires data == line[s + 1..s + 1 + limit] && HASH !in data
    ensures Attempt(line, pos, limit) == Try(data, Sum(data) == 255, s + 1 + limit, [])
  {
    StartAfter(line, pos, s);
    forall k | s + 1 <= k < s + 1 + limit ensures line[k] != HASH {
      assert line[k] == data[k - s - 1];
    }
    DataEndFull(line, s + 1, limit);
  }

  /**
    Anywhere on the line, data that fills the buffer before its end mark is accepted, without a checksum and
    without a reply, exactly if its bytes sum to 255; otherwise reading goes on after it.
   */
  lemma Overlong(line: seq<byte>, pos: nat, limit: nat, s: nat, data: seq<byte>, e: nat, replies: seq<byte>)
    requires pos <= s && e == s + 1 + limit <= |line| && line[s] == DOLLAR && data == line[s + 1..e] && HASH !in data
    requires forall k :: pos <= k < s ==> line[k] != DOLLAR
    ensures Receive(line, pos, limit, replies)
      == if Sum(data) == 255 then Got(data, e, replies) else Receive(line, e, limit, replies)
  {
    OverlongAttempt(line, pos, limit, s, data);
    ReceiveQuietly(line, pos, limit, replies, data, Sum(data) == 255, e);
  }

  lemma ReceiveQuietly(line: seq<byte>, pos: nat, limit: nat, replies: seq<byte>, data: seq<byte>, good: bool, e: nat)
    requires pos <= |line| && e <= |line| && Attempt(line, pos, limit) == Try(data, good, e, [])
    ensures Receive(line, pos, limit, replies)
      == if good then Got(data, e, replies) else Receive(line, e, limit, replies)
  {
    ReceiveStep(line, pos, limit, replies, Try(data, good, e, []));
    assert replies + [] == replies;
  }

  lemma {:induction false} SumZeros(x: byte, n: nat)
    ensures Sum([x] + Repeat(0, n)) == x
  {
    if n > 0 {
      RepeatLast(0, n);
      var d := [x] + Repeat(0, n - 1);
      assert [x] + Repeat(0, n) == d + [0];
      SumZeros(x, n - 1);
      SumZero(d);
    } else {
      assert [x] + [] == [x] && [x][..0] == [];
    }
  }

  lemma SumZero(d: seq<byte>)
    ensures Sum(d + [0]) == Sum(d)
  {
    var e: seq<byte> := d + [0];
    assert e[..|e| - 1] == d && e[|e| - 1] == 0;
  }

  lemma {:induction false} RepeatLast(x: byte, n: nat)
    requires n > 0
    ensures Repeat(x, n) == Repeat(x, n - 1) + [x]
  {
    if n > 1 { RepeatLast(x, n - 1); }
  }

  /** A full buffer of one byte 255 and zeros is taken for a packet. */
  lemma OverlongInstance()
    ensures var data := [255] + Repeat(0, BUFMAX - 2);
      Receive([DOLLAR] + data, 0, BUFMAX - 1, []) == Got(data, BUFMAX, [])
  {
    var data := [255] + Repeat(0, BUFMAX - 2);
    var line := [DOLLAR] + data;
    SumZeros(255, BUFMAX - 2);
    AllZeros(BUFMAX - 2);
    assert line[1..BUFMAX] == data;
    Overlong(line, 0, BUFMAX - 1, 0, data, BUFMAX, []);
  }

  lemma {:induction false} AllZeros(n: nat)
    ensures HASH !in Repeat<byte>(0, n)
  {
    if n > 0 { AllZeros(n - 1); }
  }

  lemma {:induction false} DataEndFull(line: seq<byte>, pos: nat, limit: nat)
    requires pos + limit <= |line| && forall k :: pos <= k < pos + limit ==> line[k] != HASH
    ensures DataEnd(line, pos, limit) == pos + limit
    decreases limit
  {
    if limit > 0 { DataEndFull(line, pos + 1, limit - 1); }
  }

  // ---------------------------------------------------------------- memory across the line

  lemma {:induction false} TextChars(mem: seq<byte>)
    ensures forall k :: 0 <= k < |Text(mem)| ==> Text(mem)[k] != 0 && Text(mem)[k] != HASH
  {
    if mem != [] {
      var b := mem[|mem| - 1];
      TextChars(mem[..|mem| - 1]);
      HexIs(b / 16);
      HexIs(b % 16);
    }
  }

  /**
    Memory whose text fits the buffer is the same after both conversions and both ends of the line, however often its
    packet arrives damaged before it arrives intact. The sender, hearing the replies to all of them, sends it as often.
   */
  method Transfer(mem: seq<byte>, bad: seq<seq<byte>>) returns (copy: seq<byte>, sent: Sent)
    requires 2 * |mem| + 1 <= BUFMAX && forall k :: 0 <= k < |bad| ==> Damaged(bad[k], BUFMAX - 1)
    ensures copy == mem
    ensures sent.done && sent.out == Concat(Repeat(Frame(Text(mem)), |bad| + 1))
  {
    var there, here := new byte[BUFMAX], new byte[BUFMAX];
    ghost var text := Text(mem);
    TextChars(mem);
    MemToHex(mem, there);
    forall k | 0 <= k < |text| ensures there[k] == text[k] { assert there[..|text|][k] == text[k]; }
    Conversation(text, BUFMAX - 1, bad);
    var got := GetPacket(Concat(bad) + Frame(there[..2 * |mem|]), BUFMAX - 1, here);
    sent := PutPacket(there, got.replies, |text|);
    copy := HexToMem(here, |mem|);
    RawText(mem, copy);
  }
}
