/** The Wayland wire (waylandcheck.c): messages built in a fixed buffer, and a byte
    stream cut back into messages however the reads split it. */
module Wayland {

  import opened Bytes
  import opened Options

  // ---- Messages ----

  datatype Message = Message(id: nat, opcode: nat, args: seq<Byte>)

  function Size(m: Message): nat {
    8 + |m.args|
  }

  predicate ValidMessage(m: Message) {
    m.id < 0x1_0000_0000 && m.opcode < 0x1_0000 && Size(m) < 0x1_0000
  }

  /** A message on the wire: object, then size and opcode in one word, then arguments. */
  function Raw(m: Message): (b: seq<Byte>)
    ensures |b| == Size(m)
  {
    LittleEndian(m.id, 4) + LittleEndian(m.opcode + Size(m) * 0x1_0000, 4) + m.args
  }

  function RawAll(ms: seq<Message>): seq<Byte> {
    if ms == [] then [] else Raw(ms[0]) + RawAll(ms[1..])
  }

  // ---- Cutting a stream ----

  function SizeAt(b: seq<Byte>): nat
    requires |b| >= 8
  {
    U32At(b, 4) / 0x1_0000
  }

  /** A whole message is at the front. */
  predicate Whole(b: seq<Byte>) {
    |b| >= 8 && 8 <= SizeAt(b) <= |b|
  }

  function Front(b: seq<Byte>): Message
    requires Whole(b)
  {
    Message(U32At(b, 0), U32At(b, 4) % 0x1_0000, b[8..SizeAt(b)])
  }

  /** Four bytes that spell a number, the low one first. */
  predicate Spells(b: seq<Byte>, v: nat) {
    |b| == 4 && b[0] as int + b[1] as int * 0x100 + b[2] as int * 0x1_0000 + b[3] as int * 0x100_0000 == v
  }

  /** These bytes are this message: the object in the first word, the opcode in the low
      half of the second, the whole length in its upper half, and then the arguments. */
  predicate OnWire(b: seq<Byte>, m: Message) {
    && |b| == 8 + |m.args| && Spells(b[..4], m.id)
    && b[4] as int + b[5] as int * 0x100 == m.opcode && b[6] as int + b[7] as int * 0x100 == |b|
    && b[8..] == m.args
  }

  lemma U32Spells(v: nat)
    requires v < 0x1_0000_0000
    ensures Spells(LittleEndian(v, 4), v)
  {
    FourBytes(v);
    JoinDigits(v);
  }

  lemma LowHalf(b: seq<Byte>, opcode: nat, size: nat)
    requires Spells(b, opcode + size * 0x1_0000) && opcode < 0x1_0000 && size < 0x1_0000
    ensures b[0] as int + b[1] as int * 0x100 == opcode && b[2] as int + b[3] as int * 0x100 == size
  {
  }

  /** What is written for a message is that message, and only that is. */
  lemma RawIsOnWire(m: Message, b: seq<Byte>)
    requires ValidMessage(m)
    ensures OnWire(b, m) <==> b == Raw(m)
  {
    hide LittleEndian;
    var word := m.opcode + Size(m) * 0x1_0000;
    var r := Raw(m);
    U32Spells(m.id);
    U32Spells(word);
    assert r[..4] == LittleEndian(m.id, 4) && r[4..8] == LittleEndian(word, 4) && r[8..] == m.args;
    LowHalf(r[4..8], m.opcode, Size(m));
    if OnWire(b, m) {
      SameSpelling(b[..4], r[..4], m.id);
      SameSpelling(b[4..8], r[4..8], word);
      assert b == b[..4] + b[4..8] + b[8..] && r == r[..4] + r[4..8] + r[8..];
    }
  }

  lemma SameSpelling(a: seq<Byte>, b: seq<Byte>, v: nat)
    requires Spells(a, v) && Spells(b, v)
    ensures a == b
  {
    SplitDigits(a[0], a[1], a[2], a[3]);
    SplitDigits(b[0], b[1], b[2], b[3]);
  }

  /** The messages cut from a stream, and the bytes left over. */
  function Parse(b: seq<Byte>): (seq<Message>, seq<Byte>)
    decreases |b|
  {
    if Whole(b) then
      var (ms, rest) := Parse(b[SizeAt(b)..]);
      ([Front(b)] + ms, rest)
    else ([], b)
  }

  lemma FrontOnWire(b: seq<Byte>)
    requires Whole(b)
    ensures OnWire(b[..SizeAt(b)], Front(b))
  {
    var v := U32At(b, 4);
    assert v % 0x1_0000 == U16At(b, 4) && v / 0x1_0000 == U16At(b, 6);
    assert b[..SizeAt(b)][8..] == b[8..SizeAt(b)];
  }

  /** The cut, byte by byte: the sixth and seventh byte say how long the first message
      is; it is cut off if it has come whole and is not shorter than its header. */
  lemma CutByBytes(b: seq<Byte>)
    ensures var (ms, rest) := Parse(b);
            && (|b| < 8 ==> ms == [] && rest == b)
            && (|b| >= 8 ==>
                  var size := b[6] as int + b[7] as int * 0x100;
                  if size < 8 || size > |b| then ms == [] && rest == b
                  else ms != [] && OnWire(b[..size], ms[0]) && Parse(b[size..]) == (ms[1..], rest))
  {
    if |b| >= 8 {
      assert SizeAt(b) == U16At(b, 6);
      if Whole(b) {
        FrontOnWire(b);
      }
    }
  }

  /** A front whose size makes no sense: nothing after it is ever cut. */
  predicate Stalled(b: seq<Byte>) {
    |b| >= 8 && SizeAt(b) < 8
  }

  lemma SameFront(a: seq<Byte>, b: seq<Byte>)
    requires |a| >= 8
    ensures SizeAt(a + b) == SizeAt(a)
    ensures Whole(a) ==> Whole(a + b) && Front(a + b) == Front(a)
  {
    assert U32At(a + b, 0) == U32At(a, 0) && U32At(a + b, 4) == U32At(a, 4);
    if Whole(a) {
      assert (a + b)[8..SizeAt(a)] == a[8..SizeAt(a)];
    }
  }

  /** Main result: cutting what came and then the rest with what comes next is
      cutting it all at once, for any bytes at all. */
  lemma {:induction false} ParseSplits(a: seq<Byte>, b: seq<Byte>)
    ensures var (ms, rest) := Parse(a);
            Parse(a + b) == (ms + Parse(rest + b).0, Parse(rest + b).1)
    decreases |a|
  {
    hide U32At, Front;
    if Whole(a) {
      SameFront(a, b);
      var n := SizeAt(a);
      ParseSplits(a[n..], b);
      assert (a + b)[n..] == a[n..] + b;
      var (ms, rest) := Parse(a[n..]);
      assert [Front(a)] + (ms + Parse(rest + b).0) == [Front(a)] + ms + Parse(rest + b).0;
    } else {
      assert [] + Parse(a + b).0 == Parse(a + b).0;
    }
  }

  /** What a program has cut and what it still holds, after reading chunk by chunk. */
  function ParseChunks(left: seq<Byte>, chunks: seq<seq<Byte>>): (seq<Message>, seq<Byte>)
    decreases |chunks|
  {
    if chunks == [] then ([], left)
    else
      var (ms, rest) := Parse(left + chunks[0]);
      var (more, end) := ParseChunks(rest, chunks[1..]);
      (ms + more, end)
  }

  function Joined(chunks: seq<seq<Byte>>): seq<Byte> {
    if chunks == [] then [] else chunks[0] + Joined(chunks[1..])
  }

  lemma {:induction false} ParseRests(b: seq<Byte>)
    ensures Parse(Parse(b).1) == ([], Parse(b).1)
    decreases |b|
  {
    if Whole(b) {
      ParseRests(b[SizeAt(b)..]);
    }
  }

  /** Main result: the messages do not depend on how the reads split the stream. */
  lemma {:induction false} SplitsDoNotMatter(left: seq<Byte>, chunks: seq<seq<Byte>>)
    requires Parse(left) == ([], left)
    ensures ParseChunks(left, chunks) == Parse(left + Joined(chunks))
    decreases |chunks|
  {
    if chunks == [] {
      assert left + [] == left;
    } else {
      var rest := Parse(left + chunks[0]).1;
      ParseRests(left + chunks[0]);
      SplitsDoNotMatter(rest, chunks[1..]);
      ParseSplits(left + chunks[0], Joined(chunks[1..]));
      assert left + Joined(chunks) == left + chunks[0] + Joined(chunks[1..]);
    }
  }

  // ---- Nothing lost ----

  lemma FrontIsRaw(b: seq<Byte>)
    requires Whole(b)
    ensures Raw(Front(b)) == b[..SizeAt(b)] && ValidMessage(Front(b))
  {
    U32WritesBack(b, 0);
    U32WritesBack(b, 4);
    var m := Front(b);
    assert m.opcode + Size(m) * 0x1_0000 == U32At(b, 4);
    assert b[..SizeAt(b)] == b[0..4] + b[4..8] + b[8..SizeAt(b)];
  }

  lemma JoinFront(b: seq<Byte>, n: nat, m: Message, ms: seq<Message>, rest: seq<Byte>)
    requires n <= |b| && Raw(m) == b[..n] && RawAll(ms) + rest == b[n..]
    ensures RawAll([m] + ms) + rest == b
  {
    assert ([m] + ms)[1..] == ms;
    assert RawAll([m] + ms) + rest == b[..n] + b[n..];
  }

  /** Main result: the messages cut, written out again, and the bytes left are the stream. */
  lemma {:induction false} ParseLosesNothing(b: seq<Byte>)
    ensures var (ms, rest) := Parse(b); RawAll(ms) + rest == b && forall m :: m in ms ==> ValidMessage(m)
    decreases |b|
  {
    if Whole(b) {
      var n := SizeAt(b);
      FrontIsRaw(b);
      ParseLosesNothing(b[n..]);
      var (ms, rest) := Parse(b[n..]);
      JoinFront(b, n, Front(b), ms, rest);
    }
  }

  lemma RawFront(m: Message, tail: seq<Byte>)
    requires ValidMessage(m)
    ensures var b := Raw(m) + tail;
            Whole(b) && SizeAt(b) == Size(m) && Front(b) == m && b[SizeAt(b)..] == tail
  {
    hide LittleEndian;
    var word := m.opcode + Size(m) * 0x1_0000;
    var b := Raw(m) + tail;
    U32ReadsBack(m.id, [], LittleEndian(word, 4) + m.args + tail);
    assert b == [] + LittleEndian(m.id, 4) + (LittleEndian(word, 4) + m.args + tail);
    U32ReadsBack(word, LittleEndian(m.id, 4), m.args + tail);
    assert b == LittleEndian(m.id, 4) + LittleEndian(word, 4) + (m.args + tail);
  }

  /** Main result: of well-formed traffic, read as far as it came, the messages cut
      are the first ones sent, the cut never stalls, and once all came all are cut. */
  lemma {:induction false} TrafficIsCut(ms: seq<Message>, came: seq<Byte>)
    requires (forall m :: m in ms ==> ValidMessage(m)) && came <= RawAll(ms)
    ensures var (cut, left) := Parse(came); cut <= ms && !Stalled(left) && (came == RawAll(ms) ==> cut == ms && left == [])
    decreases |ms|
  {
    hide Raw, Front;
    if ms == [] {
    } else {
      var (m, all) := (ms[0], RawAll(ms));
      assert m in ms;
      RawFront(m, RawAll(ms[1..]));
      if |came| >= Size(m) {
        var later := came[Size(m)..];
        assert came == Raw(m) + later;
        RawFront(m, later);
        TrafficIsCut(ms[1..], later);
        assert later == all[Size(m)..|came|];
        assert ms == [m] + ms[1..];
      } else if |came| >= 8 {
        assert all == came + all[|came|..];
        SameFront(came, all[|came|..]);
      }
    }
  }

  /** A cut that has not stalled leaves less than the largest message. */
  lemma {:induction false} RoomIsLeft(b: seq<Byte>)
    requires !Stalled(Parse(b).1)
    ensures |Parse(b).1| < 0xFFFF
    decreases |b|
  {
    if Whole(b) {
      RoomIsLeft(b[SizeAt(b)..]);
    }
  }

  /** A stalled front stays, whatever comes. */
  lemma StalledForGood(b: seq<Byte>, more: seq<Byte>)
    requires Stalled(b)
    ensures Parse(b + more) == ([], b + more) && Stalled(b + more)
  {
    SameFront(b, more);
  }

  /** A header that is not there yet can still be completed to a message's. */
  lemma HeaderCompletes(b: seq<Byte>) returns (more: seq<Byte>)
    requires |b| < 8
    ensures Whole(b + more)
  {
    var start := Zeros(7 - |b|) + [1];
    var header := b + start;
    var size := header[6] as int + 0x100;
    assert U16At(header, 6) == size;
    assert SizeAt(header) == size by {
      UpperHalf(U16At(header, 4), size);
    }
    SameFront(header, Zeros(size - 8));
    more := start + Zeros(size - 8);
    assert b + more == header + Zeros(size - 8);
  }

  lemma UpperHalf(low: nat, high: nat)
    requires low < 0x1_0000
    ensures (low + 0x1_0000 * high) / 0x1_0000 == high
  {
  }

  /** What is left over, unless it has stalled, is the beginning of some message. */
  lemma RestCompletes(b: seq<Byte>) returns (more: seq<Byte>)
    requires !Whole(b) && !Stalled(b)
    ensures Whole(b + more)
  {
    if |b| < 8 {
      more := HeaderCompletes(b);
    } else {
      more := Zeros(SizeAt(b) - |b|);
      SameFront(b, more);
    }
  }

  /** No continuation of this stream brings another message. */
  ghost predicate CutOff(b: seq<Byte>) {
    forall more :: Parse(b + more).0 == Parse(b).0
  }

  /** Main result: after any bytes at all, no continuation of the stream brings another
      message exactly when what is left over begins with a size below eight. */
  lemma StallsExactly(b: seq<Byte>)
    ensures CutOff(b) <==> Stalled(Parse(b).1)
  {
    var (ms, rest) := Parse(b);
    ParseRests(b);
    if Stalled(rest) {
      forall more ensures Parse(b + more).0 == ms {
        ParseSplits(b, more);
        StalledForGood(rest, more);
      }
    } else {
      var more := RestCompletes(rest);
      ParseSplits(b, more);
      assert |Parse(rest + more).0| > 0;
      assert |Parse(b + more).0| > |ms|;
    }
  }

  /** The stream is cut down to what is held, which may hold more messages. */
  ghost predicate Cutting(stream: seq<Byte>, cut: seq<Message>, held: seq<Byte>) {
    Parse(stream) == (cut + Parse(held).0, Parse(held).1)
  }

  lemma StartCutting(stream: seq<Byte>, cut: seq<Message>, left: seq<Byte>, chunk: seq<Byte>)
    requires Parse(stream) == (cut, left)
    ensures Cutting(stream + chunk, cut, left + chunk)
  {
    ParseSplits(stream, chunk);
  }

  lemma CutOne(stream: seq<Byte>, cut: seq<Message>, held: seq<Byte>)
    requires Cutting(stream, cut, held) && Whole(held)
    ensures Cutting(stream, cut + [Front(held)], held[SizeAt(held)..])
  {
    var ms := Parse(held[SizeAt(held)..]).0;
    assert cut + ([Front(held)] + ms) == cut + [Front(held)] + ms;
  }

  lemma CutAll(stream: seq<Byte>, cut: seq<Message>, held: seq<Byte>)
    requires Cutting(stream, cut, held) && !Whole(held)
    ensures Parse(stream) == (cut, held)
  {
    assert cut + [] == cut;
  }

  // ---- The reader ----

  /** The input buffer of `wait_for`; `dispatched` is what the handler was given. */
  class Inbox {
    const buf: array<Byte>
    var len: nat
    var dispatched: seq<Message>
    ghost var received: seq<Byte>

    /** Whatever was received has been cut as far as it can be. */
    ghost predicate Valid()
      reads this, buf
    {
      buf.Length == 0x1_0000 && len <= buf.Length && Parse(received) == (dispatched, buf[..len])
    }

    constructor ()
      ensures Valid() && fresh(buf) && received == []
    {
      buf := new Byte[0x1_0000](i => 0);
      len, dispatched, received := 0, [], [];
    }

    /** One read: the kernel gives no more than there is room for. */
    method Receive(chunk: seq<Byte>)
      requires Valid() && len + |chunk| <= buf.Length
      modifies this, buf
      ensures Valid() && received == old(received) + chunk
    {
      StartCutting(received, dispatched, buf[..len], chunk);
      ghost var held := buf[..len] + chunk;
      received := received + chunk;
      Copy(buf, len, chunk);
      len := len + |chunk|;
      while len >= 8
        invariant len <= buf.Length == 0x1_0000 && buf[..len] == held
        invariant received == old(received) + chunk
        invariant Cutting(received, dispatched, held)
      {
        var size := SizeAt(buf[..len]);
        if size < 8 || len < size {
          break;
        }
        CutOne(received, dispatched, held);
        dispatched := dispatched + [Front(buf[..len])];
        ShiftDown(buf, size, len - size);
        len := len - size;
        held := held[size..];
      }
      CutAll(received, dispatched, held);
    }
  }

  /** memmove of `n` bytes from `from` to the front. */
  method ShiftDown(buf: array<Byte>, from: nat, n: nat)
    requires from + n <= buf.Length
    modifies buf
    ensures buf[..n] == old(buf[from..from + n])
  {
    forall i | 0 <= i < n {
      buf[i] := buf[i + from];
    }
  }

  /** Main result: while the traffic is well formed there is always room for more. */
  lemma AlwaysRoom(ms: seq<Message>, came: seq<Byte>)
    requires (forall m :: m in ms ==> ValidMessage(m)) && came <= RawAll(ms)
    ensures |Parse(came).1| < 0xFFFF
  {
    TrafficIsCut(ms, came);
    RoomIsLeft(came);
  }

  // ---- Building a message ----

  type Word = x: int | 0 <= x < 0x1_0000_0000

  /** A C string, without its terminator. */
  type CString = s: seq<Byte> | 0 !in s

  datatype Arg = Uint(value: Word) | Str(text: CString)

  /** `(n + 3) & ~3`. */
  function Padded(n: nat): (p: nat)
    ensures n <= p < n + 4
  {
    (n + 3) / 4 * 4
  }

  function ArgBytes(a: Arg): seq<Byte> {
    match a
    case Uint(v) => LittleEndian(v, 4)
    case Str(text) => LittleEndian(|text| + 1, 4) + text + Zeros(Padded(|text| + 1) - |text|)
  }

  /** These bytes are this argument: a number in four bytes; a string's length with its
      terminator, the string, and zeros, at least one, up to a whole word. */
  predicate ArgOnWire(b: seq<Byte>, a: Arg) {
    match a
    case Uint(v) => Spells(b, v)
    case Str(text) =>
      && |text| + 5 <= |b| <= |text| + 8 && |b| % 4 == 0
      && Spells(b[..4], |text| + 1)
      && b[4..4 + |text|] == text
      && forall i :: 4 + |text| <= i < |b| ==> b[i] == 0
  }

  lemma ArgBytesOnWire(a: Arg)
    requires a.Str? ==> |a.text| + 1 < 0x1_0000_0000
    ensures ArgOnWire(ArgBytes(a), a)
  {
    hide LittleEndian;
    match a
    case Uint(v) => U32Spells(v);
    case Str(text) =>
      U32Spells(|text| + 1);
      assert ArgBytes(a)[..4] == LittleEndian(|text| + 1, 4);
  }

  function ArgsBytes(args: seq<Arg>): seq<Byte> {
    if args == [] then [] else ArgsBytes(args[..|args| - 1]) + ArgBytes(args[|args| - 1])
  }

  lemma OneMoreArg(args: seq<Arg>, a: Arg)
    ensures ArgsBytes(args + [a]) == ArgsBytes(args) + ArgBytes(a)
  {
    assert (args + [a])[..|args|] == args;
  }

  /** Writing right after the first `n` bytes makes them longer. */
  lemma Appended(was: seq<Byte>, now: seq<Byte>, n: nat, piece: seq<Byte>)
    requires n + |piece| <= |was| && now == Spliced(was, n, piece)
    ensures |now| == |was| && now[..n + |piece|] == was[..n] + piece
  {
  }

  /** Zeros, then a C string over their start, are the string filled up with zeros. */
  lemma StringOverZeros(was: seq<Byte>, m1: seq<Byte>, m2: seq<Byte>, at: nat, text: seq<Byte>, room: nat)
    requires at + room <= |was| && |text| < room
    requires m1 == Spliced(was, at, Zeros(room)) && m2 == Spliced(m1, at, text + [0])
    ensures m2 == Spliced(was, at, text + Zeros(room - |text|))
  {
  }

  lemma StringWritten(m0: seq<Byte>, m1: seq<Byte>, m2: seq<Byte>, m3: seq<Byte>,
                      n: nat, le: seq<Byte>, text: seq<Byte>, room: nat)
    requires n + |le| + room <= |m0| && |text| < room
    requires m1 == Spliced(m0, n, le)
    requires m2 == Spliced(m1, n + |le|, Zeros(room)) && m3 == Spliced(m2, n + |le|, text + [0])
    ensures |m3| == |m0| && m3[..n + |le| + room] == m0[..n] + (le + text + Zeros(room - |text|))
  {
    Appended(m0, m1, n, le);
    StringOverZeros(m1, m2, m3, n + |le|, text, room);
    Appended(m1, m3, n + |le|, text + Zeros(room - |text|));
    assert m0[..n] + le + (text + Zeros(room - |text|)) == m0[..n] + (le + text + Zeros(room - |text|));
  }

  method WriteAfter(msg: array<Byte>, at: nat, piece: seq<Byte>)
    requires at + |piece| <= msg.Length
    modifies msg
    ensures msg[..at + |piece|] == old(msg[..at]) + piece
  {
    Copy(msg, at, piece);
  }

  /** A string's length, and the string over zeros. */
  method WriteString(msg: array<Byte>, at: nat, len: nat, text: CString)
    requires len == |text| + 1 && at + 4 + Padded(len) <= msg.Length
    modifies msg
    ensures msg[..at + 4 + Padded(len)] == old(msg[..at]) + ArgBytes(Str(text))
  {
    hide LittleEndian, Padded;
    ghost var m0 := msg[..];
    Copy(msg, at, LittleEndian(len, 4));
    ghost var m1 := msg[..];
    Clear(msg, at + 4, Padded(len));
    ghost var m2 := msg[..];
    Copy(msg, at + 4, text + [0]);
    StringWritten(m0, m1, m2, msg[..], at, LittleEndian(len, 4), text, Padded(len));
    assert msg[..at + 4 + Padded(len)] == msg[..][..at + 4 + Padded(len)];
  }

  function Head(id: nat, word: nat): (b: seq<Byte>)
    ensures |b| == 8
  {
    LittleEndian(id, 4) + LittleEndian(word, 4)
  }

  /** Adding the size to the second word makes the buffer the message. */
  lemma SizeWritten(was: seq<Byte>, n: nat, id: nat, opcode: nat, args: seq<Byte>)
    requires 8 <= n <= |was| && n < 0x1_0000 && id < 0x1_0000_0000 && opcode < 0x1_0000
    requires was[..n] == Head(id, opcode) + args
    ensures U32At(was[..n], 4) == opcode
    ensures Spliced(was, 4, LittleEndian(opcode + n * 0x1_0000, 4))[..n] == Raw(Message(id, opcode, args))
  {
    U32ReadsBack(opcode, LittleEndian(id, 4), args);
    var word := LittleEndian(opcode + n * 0x1_0000, 4);
    assert args == was[..n][8..];
    assert was[..4] == was[..n][..4] == LittleEndian(id, 4);
    assert Spliced(was, 4, word)[..n] == was[..4] + word + was[..n][8..];
  }

  /** The static message buffer, 256 words of four bytes; `payload` is what was put so far. */
  class Builder {
    const msg: array<Byte>
    var words: nat
    ghost var id: nat
    ghost var opcode: nat
    ghost var payload: seq<Byte>

    ghost predicate Building()
      reads this, msg
    {
      && msg.Length == 1024 && 2 <= words <= 256 && id < 0x1_0000_0000 && opcode < 0x1_0000
      && msg[..words * 4] == Head(id, opcode) + payload
    }

    constructor ()
      ensures fresh(msg) && msg.Length == 1024
    {
      msg := new Byte[1024](i => 0);
      words, id, opcode, payload := 0, 0, 0, [];
    }

    method Begin(id: nat, opcode: nat)
      requires msg.Length == 1024 && id < 0x1_0000_0000 && opcode < 0x1_0000
      modifies this, msg
      ensures Building() && this.id == id && this.opcode == opcode && payload == [] && words == 2
    {
      Copy(msg, 0, LittleEndian(id, 4));
      Copy(msg, 4, LittleEndian(opcode, 4));
      words := 2;
      this.id, this.opcode, payload := id, opcode, [];
    }

    method Put(value: Word)
      requires Building() && words < 256
      modifies this, msg
      ensures Building() && id == old(id) && opcode == old(opcode) && words == old(words) + 1
      ensures payload == old(payload) + ArgBytes(Uint(value)) && ArgOnWire(payload[|old(payload)|..], Uint(value))
    {
      ArgBytesOnWire(Uint(value));
      var piece := LittleEndian(value, 4);
      WriteAfter(msg, words * 4, piece);
      words := words + 1;
      payload := payload + piece;
    }

    /** A C string: its length with the terminator, then the bytes, zeros up to a whole word. */
    method PutStr(text: CString)
      requires Building() && words * 4 + 4 + Padded(|text| + 1) <= 1024
      modifies this, msg
      ensures Building() && id == old(id) && opcode == old(opcode)
      ensures words * 4 == old(words) * 4 + 4 + Padded(|text| + 1)
      ensures payload == old(payload) + ArgBytes(Str(text)) && ArgOnWire(payload[|old(payload)|..], Str(text))
    {
      hide ArgBytes, ArgOnWire, Head;
      ArgBytesOnWire(Str(text));
      var len := |text| + 1;
      WriteString(msg, words * 4, len, text);
      words := words + 1 + (len + 3) / 4;
      payload := payload + ArgBytes(Str(text));
    }

    /** The size goes into the upper half of the second word, whose lower half is the opcode. */
    method End() returns (sent: seq<Byte>)
      requires Building()
      modifies msg
      ensures sent == Raw(Message(id, opcode, payload)) && ValidMessage(Message(id, opcode, payload))
      ensures OnWire(sent, Message(id, opcode, payload))
    {
      hide LittleEndian, Head, Raw, OnWire;
      SizeWritten(msg[..], words * 4, id, opcode, payload);
      var second := U32At(msg[..words * 4], 4);
      Copy(msg, 4, LittleEndian(second + words * 4 * 0x1_0000, 4));
      sent := msg[..words * 4];
      RawIsOnWire(Message(id, opcode, payload), sent);
    }
  }

  // ---- Reading the arguments back ----

  datatype Kind = Number | Text

  function KindOf(a: Arg): Kind {
    if a.Uint? then Number else Text
  }

  function KindsOf(args: seq<Arg>): seq<Kind> {
    seq(|args|, i requires 0 <= i < |args| => KindOf(args[i]))
  }

  /** How the protocol reads one argument of a known kind off the front. */
  function ReadArg(kind: Kind, b: seq<Byte>): Option<(Arg, seq<Byte>)> {
    if |b| < 4 then None else
    var v := U32At(b, 0);
    match kind
    case Number => Some((Uint(v), b[4..]))
    case Text =>
      if v == 0 || |b| < 4 + Padded(v) || b[4 + v - 1] != 0 || 0 in b[4..4 + v - 1] then None
      else Some((Str(b[4..4 + v - 1]), b[4 + Padded(v)..]))
  }

  function ReadArgs(kinds: seq<Kind>, b: seq<Byte>): Option<seq<Arg>> {
    if kinds == [] then if b == [] then Some([]) else None
    else
      match ReadArg(kinds[0], b)
      case None => None
      case Some((a, rest)) =>
        match ReadArgs(kinds[1..], rest)
        case None => None
        case Some(more) => Some([a] + more)
  }

  lemma StringReadsBack(text: CString, rest: seq<Byte>)
    requires |text| + 1 < 0x1_0000_0000
    ensures ReadArg(Text, ArgBytes(Str(text)) + rest) == Some((Str(text), rest))
  {
    hide LittleEndian;
    var n := |text| + 1;
    var (le, pad) := (LittleEndian(n, 4), Zeros(Padded(n) - |text|));
    var b := le + text + pad + rest;
    U32ReadsBack(n, [], text + pad + rest);
    assert b == [] + le + (text + pad + rest);
    assert b[4 + n - 1] == pad[0];
    assert b[4..4 + n - 1] == text;
    assert b[4 + Padded(n)..] == rest;
  }

  lemma ArgReadsBack(a: Arg, rest: seq<Byte>)
    requires |ArgBytes(a)| < 0x1_0000
    ensures ReadArg(KindOf(a), ArgBytes(a) + rest) == Some((a, rest))
  {
    match a
    case Uint(v) =>
      U32ReadsBack(v, [], rest);
      assert ArgBytes(a) + rest == [] + LittleEndian(v, 4) + rest;
    case Str(text) =>
      StringReadsBack(text, rest);
  }

  lemma {:induction false} FirstArg(args: seq<Arg>)
    requires args != []
    ensures ArgsBytes(args) == ArgBytes(args[0]) + ArgsBytes(args[1..])
  {
    if |args| > 1 {
      FirstArg(args[..|args| - 1]);
      assert args[..|args| - 1][1..] == args[1..][..|args| - 2];
    }
  }

  lemma ReadArgsStep(kinds: seq<Kind>, b: seq<Byte>, a: Arg, rest: seq<Byte>, more: seq<Arg>)
    requires kinds != [] && ReadArg(kinds[0], b) == Some((a, rest)) && ReadArgs(kinds[1..], rest) == Some(more)
    ensures ReadArgs(kinds, b) == Some([a] + more)
  {
  }

  lemma {:induction false} ArgsReadBack(args: seq<Arg>)
    requires |ArgsBytes(args)| < 0x1_0000
    ensures ReadArgs(KindsOf(args), ArgsBytes(args)) == Some(args)
    decreases |args|
  {
    hide ReadArg, ArgBytes, KindOf;
    if args != [] {
      FirstArg(args);
      ArgReadsBack(args[0], ArgsBytes(args[1..]));
      ArgsReadBack(args[1..]);
      assert KindsOf(args)[1..] == KindsOf(args[1..]);
      ReadArgsStep(KindsOf(args), ArgsBytes(args), args[0], ArgsBytes(args[1..]), args[1..]);
      assert args == [args[0]] + args[1..];
    }
  }

  /** Main result: what a built message puts on the wire, whatever follows it, is cut
      off as that message, and its arguments are read back. */
  lemma BuiltMessageReadsBack(id: nat, opcode: nat, args: seq<Arg>, tail: seq<Byte>)
    requires ValidMessage(Message(id, opcode, ArgsBytes(args)))
    ensures var m := Message(id, opcode, ArgsBytes(args));
            && Parse(Raw(m) + tail) == ([m] + Parse(tail).0, Parse(tail).1)
            && ReadArgs(KindsOf(args), m.args) == Some(args)
  {
    RawFront(Message(id, opcode, ArgsBytes(args)), tail);
    ArgsReadBack(args);
  }

  const ID_REGISTRY: nat := 2

  lemma FourArgs(a: Arg, b: Arg, c: Arg, d: Arg)
    ensures ArgsBytes([a, b, c, d]) == ArgBytes(a) + ArgBytes(b) + ArgBytes(c) + ArgBytes(d)
  {
    hide ArgBytes;
    assert [a, b, c, d] == [] + [a] + [b] + [c] + [d];
    OneMoreArg([], a);
    OneMoreArg([] + [a], b);
    OneMoreArg([] + [a] + [b], c);
    OneMoreArg([] + [a] + [b] + [c], d);
  }

  /** wl_registry.bind, built in the buffer. */
  method BindGlobal(builder: Builder, name: Word, interface: CString, version: Word, id: Word) returns (sent: seq<Byte>)
    requires builder.msg.Length == 1024 && 8 + 16 + Padded(|interface| + 1) <= 1024
    modifies builder, builder.msg
    ensures sent == Raw(Message(ID_REGISTRY, 0, ArgsBytes([Uint(name), Str(interface), Uint(version), Uint(id)])))
  {
    hide ArgBytes, ArgsBytes, Raw;
    builder.Begin(ID_REGISTRY, 0);
    builder.Put(name);
    builder.PutStr(interface);
    builder.Put(version);
    builder.Put(id);
    FourArgs(Uint(name), Str(interface), Uint(version), Uint(id));
    assert builder.payload == ArgsBytes([Uint(name), Str(interface), Uint(version), Uint(id)]);
    sent := builder.End();
  }
}
