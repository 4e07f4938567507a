/** Signing with a Ledger device: APDU framing on the host, an automaton for the device. */
module LedgerDevice {
  import opened Wrappers
  import opened Octets

  const CLA: byte := 0xE0
  const SIGN_TX: byte := 0x04
  const SIGN_TX_HASH: byte := 0x08
  const P1_FIRST: byte := 0x00
  const P1_NOT_FIRST: byte := 0x80
  const P2_LAST: byte := 0x00
  const P2_MORE: byte := 0x80
  const APDU_MAX_SIZE: nat := 150
  const HD_PATH_ELEMENTS_COUNT: byte := 3
  const BUFFER_SIZE: nat := 1 + HD_PATH_ELEMENTS_COUNT * 4
  const CHUNK_SIZE: nat := APDU_MAX_SIZE - BUFFER_SIZE
  const RETURN_CODE_OK: nat := 0x9000
  const HARDENED: nat := 0x8000_0000

  datatype Command = Command(cla: byte, ins: byte, p1: byte, p2: byte, data: seq<byte>)

  datatype Reply = NoConnection | Answer(retcode: nat, data: seq<byte>) {
    predicate IsOk() { Answer? && retcode == RETURN_CODE_OK }
  }

  datatype Error =
    | ApduExchange(retcode: nat)
    | Connection
    | Panic  // the derivation path of an index of 2^31 or more does not parse

  type Res<+T> = Result<T, Error>

  // ----- The derivation path -----

  /** The indices of `m/44'/148'/{index}'`, all hardened. */
  function PathIndices(index: u32): Option<seq<u32>> {
    if index < HARDENED then Some([HARDENED + 44, HARDENED + 148, HARDENED + index]) else None
  }

  /** `hd_path_to_bytes`: four big-endian bytes an index. */
  function PathBytes(indices: seq<u32>): (b: seq<byte>)
    ensures |b| == 4 * |indices|
  {
    if indices == [] then [] else BeBytes(indices[0], 4) + PathBytes(indices[1..])
  }

  function ReadPath(b: seq<byte>, count: nat): Option<seq<u32>> {
    if count == 0 then Some([])
    else if |b| < 4 then None
    else
      match ReadPath(b[4..], count - 1)
      case None => None
      case Some(rest) => BeBound(b[..4]); assert Pow256(4) == 0x1_0000_0000; Some([BeValue(b[..4])] + rest)
  }

  lemma {:induction false} IndexReadsBack(index: u32)
    ensures BeValue(BeBytes(index, 4)) == index
  {
    assert Pow256(4) == 0x1_0000_0000;
    hide Pow256, BeBytes, BeValue;
    BeBytesValue(index, 4);
  }

  lemma {:induction false} ReadPathStep(word: seq<byte>, b: seq<byte>, index: u32, indices: seq<u32>)
    requires |word| == 4 && BeValue(word) == index && ReadPath(b, |indices|) == Some(indices)
    ensures ReadPath(word + b, |indices| + 1) == Some([index] + indices)
  {
    hide BeValue, Pow256;
    assert (word + b)[..4] == word && (word + b)[4..] == b;
  }

  lemma {:induction false} PathReadsBack(indices: seq<u32>, rest: seq<byte>)
    ensures ReadPath(PathBytes(indices) + rest, |indices|) == Some(indices)
  {
    hide BeBytes, BeValue;
    if indices != [] {
      var word, tail := BeBytes(indices[0], 4), PathBytes(indices[1..]);
      assert PathBytes(indices) == word + tail;
      hide PathBytes, ReadPath;
      PathReadsBack(indices[1..], rest);
      IndexReadsBack(indices[0]);
      ReadPathStep(word, tail + rest, indices[0], indices[1..]);
      assert (word + tail) + rest == word + (tail + rest);
      assert indices == [indices[0]] + indices[1..];
    }
  }

  /** The twelve bytes of m/44'/148'/index', every index with its highest bit set. */
  lemma {:induction false} PathBytesAre(index: u32)
    requires index < 0x8000_0000
    ensures PathIndices(index).Some?
    ensures PathBytes(PathIndices(index).value) ==
      [128, 0, 0, 44, 128, 0, 0, 148, 128 + index / 0x100_0000, index / 0x1_0000 % 256, index / 0x100 % 256, index % 256]
  {
    hide BeBytes;
    FourBytes(HARDENED + 44);
    FourBytes(HARDENED + 148);
    FourBytes(HARDENED + index);
    HardenedBytes(index);
    ThreeIndices(HARDENED + 44, HARDENED + 148, HARDENED + index);
    hide PathBytes;
  }

  lemma {:induction false} ThreeIndices(a: u32, b: u32, c: u32)
    ensures PathBytes([a, b, c]) == BeBytes(a, 4) + BeBytes(b, 4) + BeBytes(c, 4)
  {
    hide BeBytes;
    assert [a, b, c][1..] == [b, c] && [b, c][1..] == [c] && [c][1..] == [];
    assert PathBytes([c]) == BeBytes(c, 4) + PathBytes([]) == BeBytes(c, 4);
    assert PathBytes([b, c]) == BeBytes(b, 4) + PathBytes([c]);
    assert PathBytes([a, b, c]) == BeBytes(a, 4) + PathBytes([b, c]);
  }

  lemma {:induction false} FourBytes(n: u32)
    ensures BeBytes(n, 4) == [n / 0x100_0000, n / 0x1_0000 % 256, n / 0x100 % 256, n % 256]
  {
    var a, b, c := n / 256, n / 256 / 256, n / 256 / 256 / 256;
    assert a == n / 0x100 && b == n / 0x1_0000 && c == n / 0x100_0000;
    assert BeBytes(n, 4) == BeBytes(a, 3) + [n % 256];
    assert BeBytes(a, 3) == BeBytes(b, 2) + [a % 256];
    assert BeBytes(b, 2) == BeBytes(c, 1) + [b % 256];
    assert BeBytes(c, 1) == [c];
  }

  lemma {:induction false} HardenedBytes(n: u32)
    requires n < 0x8000_0000
    ensures (0x8000_0000 + n) / 0x100_0000 == 128 + n / 0x100_0000
    ensures (0x8000_0000 + n) / 0x1_0000 % 256 == n / 0x1_0000 % 256
    ensures (0x8000_0000 + n) / 0x100 % 256 == n / 0x100 % 256 && (0x8000_0000 + n) % 256 == n % 256
  {
    assert (0x8000_0000 + n) / 0x100_0000 == 128 + n / 0x100_0000 by { ShiftedBy24(n); }
    assert (0x8000_0000 + n) / 0x1_0000 == 128 * 256 + n / 0x1_0000 by { ShiftedBy16(n); }
    assert (0x8000_0000 + n) / 0x100 == 128 * 0x1_0000 + n / 0x100 by { ShiftedBy8(n); }
    SameLowByte(n / 0x1_0000, 128);
    SameLowByte(n / 0x100, 128 * 256);
    SameLowByte(n, 128 * 0x1_0000);
  }

  lemma {:induction false} ShiftedBy24(n: nat)
    ensures (0x8000_0000 + n) / 0x100_0000 == 128 + n / 0x100_0000
  {
  }

  lemma {:induction false} ShiftedBy16(n: nat)
    ensures (0x8000_0000 + n) / 0x1_0000 == 128 * 256 + n / 0x1_0000
  {
  }

  lemma {:induction false} ShiftedBy8(n: nat)
    ensures (0x8000_0000 + n) / 0x100 == 128 * 0x1_0000 + n / 0x100
  {
  }

  lemma {:induction false} SameLowByte(n: nat, q: nat)
    ensures (256 * q + n) % 256 == n % 256
  {
  }

  // ----- The device -----

  datatype Request = Request(path: seq<u32>, payload: seq<byte>)

  /** A count, that many path indices, and the payload. */
  function ReadRequest(data: seq<byte>): Option<Request> {
    if data == [] then None
    else
      var count: nat := data[0];
      match ReadPath(data[1..], count)
      case None => None
      case Some(path) => if |data| < 1 + 4 * count then None else Some(Request(path, data[1 + 4 * count..]))
  }

  /** What the device has buffered, and the requests it has acted on. */
  datatype Device = Device(buffer: seq<byte>, requests: seq<Option<Request>>)

  /** The device starts over on P1-first and acts on P2-last. */
  function DeviceStep(d: Device, c: Command): Device {
    if c.ins == SIGN_TX_HASH then d.(requests := d.requests + [ReadRequest(c.data)])
    else if c.ins != SIGN_TX then d
    else
      var buffer := if c.p1 == P1_FIRST then c.data else d.buffer + c.data;
      if c.p2 == P2_LAST then Device([], d.requests + [ReadRequest(buffer)]) else Device(buffer, d.requests)
  }

  function DeviceRun(d: Device, cs: seq<Command>): Device {
    if cs == [] then d else DeviceStep(DeviceRun(d, cs[..|cs| - 1]), cs[|cs| - 1])
  }

  // ----- The host -----

  /** `slice::chunks(CHUNK_SIZE)`. */
  function Chunks(data: seq<byte>): seq<seq<byte>> {
    if data == [] then []
    else if |data| <= CHUNK_SIZE then [data]
    else [data[..CHUNK_SIZE]] + Chunks(data[CHUNK_SIZE..])
  }

  function Flatten(chunks: seq<seq<byte>>): seq<byte> {
    if chunks == [] then [] else Flatten(chunks[..|chunks| - 1]) + chunks[|chunks| - 1]
  }

  function ChunkCommand(chunks: seq<seq<byte>>, i: nat): Command
    requires i < |chunks|
  {
    Command(CLA, SIGN_TX, if i == 0 then P1_FIRST else P1_NOT_FIRST, if i + 1 == |chunks| then P2_LAST else P2_MORE, chunks[i])
  }

  function RequestBytes(path: seq<u32>, payload: seq<byte>): seq<byte> {
    [HD_PATH_ELEMENTS_COUNT] + PathBytes(path) + payload
  }

  /** The commands that carry a payload for a path. */
  function Commands(path: seq<u32>, payload: seq<byte>): (cs: seq<Command>)
    ensures |cs| == |Chunks(RequestBytes(path, payload))|
    ensures forall i :: 0 <= i < |cs| ==> cs[i] == ChunkCommand(Chunks(RequestBytes(path, payload)), i)
  {
    var chunks := Chunks(RequestBytes(path, payload));
    seq(|chunks|, i requires 0 <= i < |chunks| => ChunkCommand(chunks, i))
  }

  lemma {:induction false} FlattenCons(x: seq<byte>, chunks: seq<seq<byte>>)
    ensures Flatten([x] + chunks) == x + Flatten(chunks)
  {
    var all := [x] + chunks;
    if chunks == [] {
      assert all[..|all| - 1] == [];
    } else {
      FlattenCons(x, chunks[..|chunks| - 1]);
      assert all[..|all| - 1] == [x] + chunks[..|chunks| - 1];
    }
  }

  /** The chunks are the data in pieces of 1 to 137 bytes, all but the last of them full. */
  lemma {:induction false} ChunksPartition(data: seq<byte>)
    ensures Flatten(Chunks(data)) == data
    ensures forall i :: 0 <= i < |Chunks(data)| ==> 1 <= |Chunks(data)[i]| <= CHUNK_SIZE
    ensures forall i :: 0 <= i < |Chunks(data)| - 1 ==> |Chunks(data)[i]| == CHUNK_SIZE
    ensures data != [] ==> Chunks(data) != []
  {
    if |data| > CHUNK_SIZE {
      ChunksPartition(data[CHUNK_SIZE..]);
      FlattenCons(data[..CHUNK_SIZE], Chunks(data[CHUNK_SIZE..]));
      assert data[..CHUNK_SIZE] + data[CHUNK_SIZE..] == data;
    } else if data != [] {
      assert [data][..0] == [];
    }
  }

  /** The bytes of every command: class, instruction, first and last markers, and 1 to 137 bytes of data. */
  lemma {:induction false} CommandsAre(path: seq<u32>, payload: seq<byte>, i: nat)
    requires i < |Commands(path, payload)|
    ensures var cs := Commands(path, payload);
      && cs[i].cla == 0xE0 && cs[i].ins == 0x04
      && cs[i].p1 == (if i == 0 then 0x00 else 0x80)
      && cs[i].p2 == (if i == |cs| - 1 then 0x00 else 0x80)
      && 1 <= |cs[i].data| <= 137
      && (i < |cs| - 1 ==> |cs[i].data| == 137)
  {
    ChunksPartition(RequestBytes(path, payload));
    hide Chunks, RequestBytes;
  }

  lemma {:induction false} RequestReadsBack(path: seq<u32>, payload: seq<byte>)
    requires |path| == HD_PATH_ELEMENTS_COUNT
    ensures ReadRequest(RequestBytes(path, payload)) == Some(Request(path, payload))
  {
    var data := RequestBytes(path, payload);
    assert data[1..] == PathBytes(path) + payload;
    PathReadsBack(path, payload);
    assert data[13..] == payload;
  }

  /** Before the last command the device has buffered the chunks sent and has acted on nothing. */
  lemma {:induction false} DeviceCollects(d: Device, path: seq<u32>, payload: seq<byte>, k: nat)
    requires 1 <= k < |Commands(path, payload)|
    ensures DeviceRun(d, Commands(path, payload)[..k]) == Device(Flatten(Chunks(RequestBytes(path, payload))[..k]), d.requests)
  {
    var cs, chunks := Commands(path, payload), Chunks(RequestBytes(path, payload));
    assert cs[..k][..k - 1] == cs[..k - 1] && chunks[..k][..k - 1] == chunks[..k - 1];
    if k == 1 {
      assert chunks[..0] == [] && cs[..0] == [];
      assert Flatten(chunks[..1]) == chunks[0];
    } else {
      DeviceCollects(d, path, payload, k - 1);
    }
  }

  /**
   Whatever state the device is in, the commands make it act exactly once, at the last of them, on
   exactly the path and payload given.
   */
  lemma {:induction false} DeviceRecovers(d: Device, index: u32, payload: seq<byte>)
    requires index < HARDENED
    ensures var path := PathIndices(index).value;
      && DeviceRun(d, Commands(path, payload)) == Device([], d.requests + [Some(Request(path, payload))])
      && forall k :: 0 <= k < |Commands(path, payload)| ==> DeviceRun(d, Commands(path, payload)[..k]).requests == d.requests
  {
    var path := PathIndices(index).value;
    var data := RequestBytes(path, payload);
    var cs, chunks := Commands(path, payload), Chunks(data);
    ChunksPartition(data);
    forall k | 0 <= k < |cs| ensures DeviceRun(d, cs[..k]).requests == d.requests {
      if k > 0 { DeviceCollects(d, path, payload, k); }
    }
    var n := |cs|;
    if n > 1 {
      DeviceCollects(d, path, payload, n - 1);
    } else {
      assert chunks[..0] == [];
    }
    assert Flatten(chunks) == Flatten(chunks[..n - 1]) + chunks[n - 1];
    RequestReadsBack(path, payload);
  }

  /** The reply to the `i`-th exchange counted from `from`. */
  function ReplyAt(replies: nat -> Reply, from: nat, i: nat): Reply { replies(from + i) }

  /** The reply data of the exchanges from `from` on, laid end to end. */
  function Received(replies: nat -> Reply, from: nat, n: nat): seq<byte> {
    if n == 0 then []
    else
      var last := ReplyAt(replies, from, n - 1);
      Received(replies, from, n - 1) + (if last.Answer? then last.data else [])
  }

  /** Replies are laid end to end in the order of the exchanges. */
  lemma {:induction false} ReceivedInOrder(replies: nat -> Reply, from: nat, m: nat, n: nat)
    ensures Received(replies, from, 0) == []
    ensures replies(from).Answer? ==> Received(replies, from, 1) == replies(from).data
    ensures Received(replies, from, m + n) == Received(replies, from, m) + Received(replies, from + m, n)
  {
    if n > 0 {
      ReceivedInOrder(replies, from, m, n - 1);
      assert ReplyAt(replies, from, m + n - 1) == ReplyAt(replies, from + m, n - 1);
      assert Received(replies, from, m + n) == Received(replies, from, m + (n - 1)) + (if ReplyAt(replies, from, m + n - 1).Answer? then ReplyAt(replies, from, m + n - 1).data else []);
    }
  }

  /** The connection to a device: what was sent, and what comes back at each exchange. */
  class Transport {
    var sent: seq<Command>
    const replies: nat -> Reply

    constructor (replies: nat -> Reply)
      ensures sent == [] && this.replies == replies
    {
      sent := [];
      this.replies := replies;
    }

    method Exchange(c: Command) returns (r: Reply)
      modifies this
      ensures sent == old(sent) + [c]
      ensures r == replies(|old(sent)|)
    {
      r := replies(|sent|);
      sent := sent + [c];
    }

    /** `send_command_to_ledger`. */
    method Send(c: Command) returns (r: Res<seq<byte>>)
      modifies this
      ensures sent == old(sent) + [c]
      ensures r.Ok? <==> replies(|old(sent)|).IsOk()
      ensures r.Ok? <==> replies(|old(sent)|).Answer? && replies(|old(sent)|).retcode == 0x9000
      ensures r.Ok? ==> r.value == replies(|old(sent)|).data
      ensures r.Err? && replies(|old(sent)|).Answer? ==> r.error == ApduExchange(replies(|old(sent)|).retcode)
      ensures r.Err? && replies(|old(sent)|).NoConnection? ==> r.error == Connection
    {
      var response := Exchange(c);
      match response
      case Answer(retcode, data) => r := if retcode == RETURN_CODE_OK then Ok(data) else Err(ApduExchange(retcode));
      case NoConnection => r := Err(Connection);
    }

    /**
     `sign_transaction`, given the bytes of the signature payload. It succeeds exactly when every
     exchange does, and yields the replies' data end to end; after a failed exchange nothing is sent.
     `n` counts the exchanges made.
     */
    method SignTransaction(index: u32, payload: seq<byte>) returns (r: Res<seq<byte>>, ghost n: nat)
      modifies this
      ensures index >= HARDENED ==> r == Err(Panic) && sent == old(sent)
      ensures index < HARDENED ==>
        var cs := Commands(PathIndices(index).value, payload);
        && n <= |cs| && sent == old(sent) + cs[..n]
        && (r.Ok? <==> forall i :: 0 <= i < |cs| ==> ReplyAt(replies, |old(sent)|, i).IsOk())
        && (r.Ok? ==> n == |cs| && r.value == Received(replies, |old(sent)|, n))
        && (r.Err? ==>
              && n > 0 && !ReplyAt(replies, |old(sent)|, n - 1).IsOk()
              && forall i :: 0 <= i < n - 1 ==> ReplyAt(replies, |old(sent)|, i).IsOk())
    {
      hide Chunks, PathBytes;
      var path := PathIndices(index);
      if path.None? {
        return Err(Panic), 0;
      }
      var data := [HD_PATH_ELEMENTS_COUNT];
      data := data + PathBytes(path.value);
      data := data + payload;
      var chunks := Chunks(data);
      ghost var cs := Commands(path.value, payload);
      ghost var before := sent;
      assert data == RequestBytes(path.value, payload);
      var result: seq<byte> := [];
      for i := 0 to |chunks|
        invariant sent == before + cs[..i]
        invariant forall j :: 0 <= j < i ==> ReplyAt(replies, |before|, j).IsOk()
        invariant result == Received(replies, |before|, i)
      {
        var first, last := i == 0, |chunks| == i + 1;
        var command := Command(CLA, SIGN_TX, if first then P1_FIRST else P1_NOT_FIRST, if last then P2_LAST else P2_MORE, chunks[i]);
        assert command == cs[i];
        assert |before + cs[..i]| == |before| + i;
        var reply := Send(command);
        assert before + cs[..i] + [cs[i]] == before + cs[..i + 1];
        assert reply.Ok? <==> ReplyAt(replies, |before|, i).IsOk();
        if reply.Err? {
          return Err(reply.error), i + 1;
        }
        result := result + reply.value;
      }
      r, n := Ok(result), |cs|;
    }

    /** `sign_blob`: one command, from which the device reads the path and the blob. */
    method SignBlob(index: u32, blob: seq<byte>) returns (r: Res<seq<byte>>)
      modifies this
      ensures index >= HARDENED ==> r == Err(Panic) && sent == old(sent)
      ensures index < HARDENED ==>
        && sent == old(sent) + [Command(0xE0, 0x08, 0x00, 0x00, [3] + PathBytes(PathIndices(index).value) + blob)]
        && (forall d :: DeviceStep(d, sent[|old(sent)|]) ==
              d.(requests := d.requests + [Some(Request(PathIndices(index).value, blob))]))
        && (r.Ok? <==> replies(|old(sent)|).IsOk())
        && (r.Ok? ==> r.value == replies(|old(sent)|).data)
    {
      var path := PathIndices(index);
      if path.None? {
        return Err(Panic);
      }
      var data := [HD_PATH_ELEMENTS_COUNT];
      data := data + PathBytes(path.value);
      data := data + blob;
      RequestReadsBack(path.value, blob);
      r := Send(Command(CLA, SIGN_TX_HASH, 0x00, 0x00, data));
    }
  }
}
