/**
 Length-prefixed messages on a byte stream: the framed messages of the shell service and the
 snapshot request and reply. Writers do not check sizes; readers do. Writes can stop anywhere
 and reads deliver arbitrary chunks.
 */
module Framing {
  import opened Common
  import opened IPv4

  type Data = seq<Byte>

  const MAX_PAYLOAD := 1024 * 1024
  const MAX_LABEL := 1024
  const MAX_REPLY := 4096

  // ---- lengths --------------------------------------------------------------------------------

  datatype Endian = Big | Little

  /** A length as the writer converts it: four bytes, the rest is lost. */
  function Length(e: Endian, n: nat): (b: Data)
    ensures |b| == 4
  {
    var b := Bytes(n % WIDTH);
    if e.Big? then b else [b[3], b[2], b[1], b[0]]
  }

  function LengthValue(e: Endian, b: Data): (n: nat)
    requires |b| == 4
    ensures n < WIDTH
  {
    if e.Big? then FromBytes(b) else FromBytes([b[3], b[2], b[1], b[0]])
  }

  lemma LengthExact(e: Endian, n: nat)
    ensures LengthValue(e, Length(e, n)) == n % WIDTH
  {
    BytesExact(Bytes(n % WIDTH), n % WIDTH);
    var b := Length(e, n);
    if e.Little? { assert [b[3], b[2], b[1], b[0]] == Bytes(n % WIDTH); }
  }

  // ---- blocks: a length and that many bytes ----------------------------------------------------

  function Block(e: Endian, payload: Data): Data {
    Length(e, |payload|) + payload
  }

  /** What a reader makes of the bytes ahead of it: a payload and how much it has read. */
  function ReadBlock(e: Endian, max: nat, ahead: Data): Result<(Data, nat)> {
    if |ahead| < 4 then Err
    else
      var n := LengthValue(e, ahead[..4]);
      if n > max || |ahead| - 4 < n then Err
      else Ok((ahead[4..4 + n], 4 + n))
  }

  /** Reading undoes writing, consuming exactly what was written, exactly for payloads within
      the reader's limit. */
  lemma BlockRoundTrip(e: Endian, max: nat, payload: Data, rest: Data)
    requires max < WIDTH
    ensures ReadBlock(e, max, Block(e, payload) + rest) == Ok((payload, 4 + |payload|)) <==> |payload| <= max
  {
    var ahead := Block(e, payload) + rest;
    assert ahead[..4] == Length(e, |payload|);
    LengthExact(e, |payload|);
    Small(|payload|);
    if |payload| <= max {
      assert ahead[4..4 + |payload|] == payload;
    }
  }

  lemma Small(n: nat)
    ensures n < WIDTH ==> n % WIDTH == n
    ensures n >= WIDTH ==> n % WIDTH < n
  {
  }

  /** Cut off anywhere, a block is an error. */
  lemma CutBlockFails(e: Endian, max: nat, payload: Data, k: nat)
    requires |payload| <= max < WIDTH && k < |Block(e, payload)|
    ensures ReadBlock(e, max, Block(e, payload)[..k]) == Err
  {
    if k >= 4 {
      assert Block(e, payload)[..k][..4] == Length(e, |payload|);
      LengthExact(e, |payload|);
      Small(|payload|);
    }
  }

  // ---- the three formats --------------------------------------------------------------------------

  datatype Message = Message(kind: Byte, payload: Data)

  function Frame(m: Message): Data {
    [m.kind] + Block(Big, m.payload)
  }

  function ReadFrame(ahead: Data): Result<(Message, nat)> {
    if ahead == [] then Err
    else
      match ReadBlock(Big, MAX_PAYLOAD, ahead[1..])
      case Err => Err
      case Ok((payload, n)) => Ok((Message(ahead[0], payload), 1 + n))
  }

  /** A byte in front of a block. */
  lemma Tagged(tag: Byte, b: Data, rest: Data)
    ensures ([tag] + b + rest)[1..] == b + rest && ([tag] + b + rest)[0] == tag && |[tag] + b| == 1 + |b|
  {
  }

  lemma BlockLength(e: Endian, payload: Data)
    ensures |Block(e, payload)| == 4 + |payload|
  {
  }

  /** A message is read back exactly if its payload is within 1 MiB. */
  lemma FrameRoundTrip(m: Message, rest: Data)
    ensures ReadFrame(Frame(m) + rest) == Ok((m, |Frame(m)|)) <==> |m.payload| <= 1024 * 1024
  {
    hide ReadBlock, Block;
    BlockRoundTrip(Big, MAX_PAYLOAD, m.payload, rest);
    BlockLength(Big, m.payload);
    Tagged(m.kind, Block(Big, m.payload), rest);
  }

  lemma CutFrameFails(m: Message, k: nat)
    requires |m.payload| <= MAX_PAYLOAD && k < |Frame(m)|
    ensures ReadFrame(Frame(m)[..k]) == Err
  {
    if k > 0 {
      assert Frame(m)[..k][1..] == Block(Big, m.payload)[..k - 1];
      CutBlockFails(Big, MAX_PAYLOAD, m.payload, k - 1);
    }
  }

  /** What is on the wire: the type, the length with its high byte first, the payload. */
  lemma FrameLayout(m: Message)
    ensures var f := Frame(m);
            && |f| == 5 + |m.payload| && f[0] == m.kind && f[5..] == m.payload
            && Compose(f[1], f[2], f[3], f[4]) == |m.payload| % 0x1_0000_0000
  {
    hide Block, Compose;
    var b := Block(Big, m.payload);
    BlockLayout(Big, m.payload);
    TaggedLayout(m.kind, b);
  }

  lemma TaggedLayout(tag: Byte, b: Data)
    requires |b| >= 4
    ensures var f := [tag] + b;
            |f| == 1 + |b| && f[0] == tag && f[5..] == b[4..] && f[1..5] == b[..4]
            && f[1] == b[0] && f[2] == b[1] && f[3] == b[2] && f[4] == b[3]
  {
  }

  lemma BlockLayout(e: Endian, payload: Data)
    ensures var b := Block(e, payload);
            && |b| == 4 + |payload| && b[4..] == payload
            && |payload| % 0x1_0000_0000 ==
                 if e.Big? then Compose(b[0], b[1], b[2], b[3]) else Compose(b[3], b[2], b[1], b[0])
  {
    var l := Length(e, |payload|);
    LengthExact(e, |payload|);
    hide Length, Compose;
    assert Block(e, payload)[..4] == l;
  }

  function FrameAll(ms: seq<Message>): Data {
    if ms == [] then [] else Frame(ms[0]) + FrameAll(ms[1..])
  }

  /** The messages a reader gets before the stream ends or a read fails. */
  function ReadAll(ahead: Data): (seq<Message>, bool)
    decreases |ahead|
  {
    if ahead == [] then ([], true)
    else
      match ReadFrame(ahead)
      case Err => ([], false)
      case Ok((m, n)) =>
        if n > |ahead| || n == 0 then ([], false)
        else var (ms, ok) := ReadAll(ahead[n..]); ([m] + ms, ok)
  }

  /** A list of messages is read back as that list, to the last byte; cut inside a later message,
      the stream still gives the whole messages before the cut, and then an error. */
  lemma {:induction false} ListRoundTrip(ms: seq<Message>, last: Message, k: nat)
    requires (forall m :: m in ms ==> |m.payload| <= MAX_PAYLOAD) && |last.payload| <= MAX_PAYLOAD
    requires k < |Frame(last)|
    ensures ReadAll(FrameAll(ms) + Frame(last)[..k]) == (ms, k == 0)
    decreases |ms|
  {
    hide Frame, ReadFrame;
    var cut := Frame(last)[..k];
    if ms == [] {
      CutFrameFails(last, k);
      assert FrameAll(ms) + cut == cut;
    } else {
      var tail := FrameAll(ms[1..]) + cut;
      assert FrameAll(ms) + cut == Frame(ms[0]) + tail;
      assert ms[0] in ms;
      ReadAllFrame(ms[0], tail);
      ListRoundTrip(ms[1..], last, k);
      assert ms == [ms[0]] + ms[1..];
    }
  }

  /** A whole frame ahead is read, and the rest after it. */
  lemma ReadAllFrame(m: Message, tail: Data)
    requires |m.payload| <= MAX_PAYLOAD
    ensures ReadAll(Frame(m) + tail) == (var (ms, ok) := ReadAll(tail); ([m] + ms, ok))
  {
    hide Frame, ReadFrame;
    FrameRoundTrip(m, tail);
    NonEmpty(m);
    assert (Frame(m) + tail)[|Frame(m)|..] == tail;
  }

  lemma NonEmpty(m: Message)
    ensures |Frame(m)| == 5 + |m.payload|
  {
  }

  function Request(name: Data): Data {
    Block(Little, name)
  }

  function ReadRequest(ahead: Data): Result<(Data, nat)> {
    ReadBlock(Little, MAX_LABEL, ahead)
  }

  datatype Reply = Reply(success: bool, text: Data)

  function ReplyBytes(r: Reply): Data {
    [if r.success then 0 else 1] + Block(Little, r.text)
  }

  /** Every status but zero reads as failure. */
  function ReadReply(ahead: Data): Result<(Reply, nat)> {
    if ahead == [] then Err
    else
      match ReadBlock(Little, MAX_REPLY, ahead[1..])
      case Err => Err
      case Ok((text, n)) => Ok((Reply(ahead[0] == 0, text), 1 + n))
  }

  /** What is on the wire: the length with its low byte first, and in a reply the status before it. */
  lemma SnapshotLayout(name: Data, r: Reply)
    ensures var q := Request(name);
            && |q| == 4 + |name| && q[4..] == name
            && Compose(q[3], q[2], q[1], q[0]) == |name| % 0x1_0000_0000
    ensures var q := ReplyBytes(r);
            && |q| == 5 + |r.text| && q[0] == (if r.success then 0 else 1) && q[5..] == r.text
            && Compose(q[4], q[3], q[2], q[1]) == |r.text| % 0x1_0000_0000
  {
    hide Block, Compose;
    BlockLayout(Little, name);
    BlockLayout(Little, r.text);
    TaggedLayout(if r.success then 0 else 1, Block(Little, r.text));
  }

  /** A label is read back exactly if it is within 1024 bytes; cut short it is an error. */
  lemma RequestRoundTrip(name: Data, rest: Data, k: nat)
    ensures ReadRequest(Request(name) + rest) == Ok((name, |Request(name)|)) <==> |name| <= 1024
    ensures |name| <= 1024 && k < |Request(name)| ==> ReadRequest(Request(name)[..k]) == Err
  {
    BlockRoundTrip(Little, MAX_LABEL, name, rest);
    BlockLength(Little, name);
    if |name| <= MAX_LABEL && k < |Request(name)| {
      CutBlockFails(Little, MAX_LABEL, name, k);
    }
    hide ReadBlock, Block;
  }

  /** A reply is read back exactly if its text is within 4096 bytes; cut short it is an error. */
  lemma ReplyRoundTrip(r: Reply, rest: Data, k: nat)
    ensures ReadReply(ReplyBytes(r) + rest) == Ok((r, |ReplyBytes(r)|)) <==> |r.text| <= 4096
    ensures |r.text| <= 4096 && k < |ReplyBytes(r)| ==> ReadReply(ReplyBytes(r)[..k]) == Err
  {
    hide ReadBlock, Block;
    var status: Byte := if r.success then 0 else 1;
    BlockRoundTrip(Little, MAX_REPLY, r.text, rest);
    BlockLength(Little, r.text);
    Tagged(status, Block(Little, r.text), rest);
    if |r.text| <= MAX_REPLY && 0 < k < |ReplyBytes(r)| {
      assert ReplyBytes(r)[..k][1..] == Block(Little, r.text)[..k - 1];
      CutBlockFails(Little, MAX_REPLY, r.text, k - 1);
    }
  }

  // ---- streams ----------------------------------------------------------------------------------------

  /** Accepts bytes until it breaks. */
  class Writer {
    const limit: nat
    var out: Data

    constructor (limit: nat)
      ensures out == [] && this.limit == limit
    {
      this.limit, out := limit, [];
    }

    method Write(b: Data) returns (err: bool)
      modifies this
      ensures old(out) <= out <= old(out) + b
      ensures !err <==> out == old(out) + b
    {
      var room := if limit > |out| then limit - |out| else 0;
      if room >= |b| {
        out := out + b;
        err := false;
      } else {
        out := out + b[..room];
        err := true;
      }
    }

    /** WriteMessage: type, length, payload. On an error a strict part of the frame is out. */
    method WriteMessage(m: Message) returns (err: bool)
      modifies this
      ensures old(out) <= out <= old(out) + Frame(m)
      ensures !err <==> out == old(out) + Frame(m)
    {
      err := Write([m.kind]);
      assert Frame(m) == [m.kind] + Length(Big, |m.payload|) + m.payload;
      if err { return; }
      err := Write(Length(Big, |m.payload|));
      if err { return; }
      if |m.payload| > 0 {
        err := Write(m.payload);
      }
    }

    method EncodeSnapshotRequest(name: Data) returns (err: bool)
      modifies this
      ensures old(out) <= out <= old(out) + Request(name)
      ensures !err <==> out == old(out) + Request(name)
    {
      err := Write(Length(Little, |name|));
      if err { return; }
      err := Write(name);
    }

    method EncodeSnapshotResponse(success: bool, text: Data) returns (err: bool)
      modifies this
      ensures old(out) <= out <= old(out) + ReplyBytes(Reply(success, text))
      ensures !err <==> out == old(out) + ReplyBytes(Reply(success, text))
    {
      var status: Byte := if success then 0 else 1;
      assert ReplyBytes(Reply(success, text)) == [status] + Length(Little, |text|) + text;
      err := Write([status]);
      if err { return; }
      err := Write(Length(Little, |text|));
      if err { return; }
      err := Write(text);
    }
  }

  /** The length ahead is over the limit: then nothing after it is read. */
  predicate TooLong(e: Endian, max: nat, ahead: Data) {
    |ahead| >= 4 && LengthValue(e, ahead[..4]) > max
  }

  /** Delivers its data in chunks of any positive size. */
  class Reader {
    const data: Data
    const chunk: nat -> nat
    var pos: nat

    ghost predicate Valid()
      reads this
    {
      pos <= |data| && forall n: nat :: chunk(n) > 0
    }

    function Ahead(): Data
      requires Valid()
      reads this
    {
      data[pos..]
    }

    constructor (data: Data, chunk: nat -> nat)
      requires forall n: nat :: chunk(n) > 0
      ensures Valid() && this.data == data && pos == 0 && Ahead() == data
    {
      this.data, this.chunk, pos := data, chunk, 0;
    }

    /** One read: some of what is wanted, or nothing at the end of the stream. */
    method Read(want: nat) returns (b: Data)
      requires Valid()
      modifies this
      ensures Valid() && old(pos) <= pos && b == data[old(pos)..pos] && |b| <= want
      ensures want > 0 && old(pos) < |data| ==> |b| > 0
    {
      var left := |data| - pos;
      var k := if chunk(pos) < want then chunk(pos) else want;
      if k > left { k := left; }
      b := data[pos..pos + k];
      pos := pos + k;
    }

    /** io.ReadFull: exactly n bytes, or an error when the stream ends first. */
    method ReadFull(n: nat) returns (r: Result<Data>)
      requires Valid()
      modifies this
      ensures Valid() && old(pos) <= pos
      ensures r == if |data| - old(pos) < n then Err else Ok(data[old(pos)..old(pos) + n])
      ensures r.Ok? ==> pos == old(pos) + n
    {
      var got: Data := [];
      while |got| < n
        invariant Valid() && old(pos) <= pos && |got| <= n && got == data[old(pos)..pos]
        decreases n - |got|
      {
        var b := Read(n - |got|);
        if b == [] { return Err; }
        got := got + b;
      }
      r := Ok(got);
    }

    /** A length, the check against the limit, and the payload. */
    method ReadSized(e: Endian, max: nat) returns (r: Result<Data>)
      requires Valid()
      modifies this
      ensures Valid() && old(pos) <= pos
      ensures var spec := ReadBlock(e, max, data[old(pos)..]);
              && (r.Ok? <==> spec.Ok?)
              && (r.Ok? ==> r.value == spec.value.0 && pos == old(pos) + spec.value.1)
      ensures TooLong(e, max, data[old(pos)..]) ==> r.Err? && pos == old(pos) + 4
    {
      var length := ReadFull(4);
      if length.Err? { return Err; }
      assert length.value == data[old(pos)..][..4];
      var n := LengthValue(e, length.value);
      if n > max { return Err; }
      r := Ok([]);
      if n > 0 {
        r := ReadFull(n);
      }
      assert r.Ok? ==> r.value == data[old(pos)..][4..4 + n];
    }

    /** ReadMessage */
    method ReadMessage() returns (r: Result<Message>)
      requires Valid()
      modifies this
      ensures Valid() && old(pos) <= pos
      ensures var spec := ReadFrame(old(Ahead()));
              && (r.Ok? <==> spec.Ok?)
              && (r.Ok? ==> r.value == spec.value.0 && pos == old(pos) + spec.value.1)
      ensures var ahead := old(Ahead());
              ahead != [] && TooLong(Big, 1024 * 1024, ahead[1..]) ==> r.Err? && pos == old(pos) + 5
    {
      hide ReadBlock, TooLong;
      var kind := ReadFull(1);
      if kind.Err? { return Err; }
      assert data[old(pos)..][1..] == data[pos..];
      var payload := ReadSized(Big, MAX_PAYLOAD);
      if payload.Err? { return Err; }
      r := Ok(Message(kind.value[0], payload.value));
    }

    method DecodeSnapshotRequest() returns (r: Result<Data>)
      requires Valid()
      modifies this
      ensures Valid() && old(pos) <= pos
      ensures var spec := ReadRequest(old(Ahead()));
              && (r.Ok? <==> spec.Ok?)
              && (r.Ok? ==> r.value == spec.value.0 && pos == old(pos) + spec.value.1)
      ensures TooLong(Little, 1024, old(Ahead())) ==> r.Err? && pos == old(pos) + 4
    {
      r := ReadSized(Little, MAX_LABEL);
    }

    method DecodeSnapshotResponse() returns (r: Result<Reply>)
      requires Valid()
      modifies this
      ensures Valid() && old(pos) <= pos
      ensures var spec := ReadReply(old(Ahead()));
              && (r.Ok? <==> spec.Ok?)
              && (r.Ok? ==> r.value == spec.value.0 && pos == old(pos) + spec.value.1)
      ensures var ahead := old(Ahead());
              ahead != [] && TooLong(Little, 4096, ahead[1..]) ==> r.Err? && pos == old(pos) + 5
    {
      hide ReadBlock, TooLong;
      var status := ReadFull(1);
      if status.Err? { return Err; }
      assert data[old(pos)..][1..] == data[pos..];
      var text := ReadSized(Little, MAX_REPLY);
      if text.Err? { return Err; }
      r := Ok(Reply(status.value[0] == 0, text.value));
    }
  }
}
