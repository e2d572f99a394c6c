/** Framed messages, and the transfer of one file between a sender and a receiver. */
module FileTransfers {
  import opened Common
  import opened Encoding

  const MAX: nat := 104857600
  const U32: nat := 0x1_0000_0000

  datatype Message =
    | FileTransferRequest(path: Bytes, size: nat, checksum: Bytes)
    | FileTransferResponse(accepted: bool)
    | FileData(data: Bytes)
    | TransferComplete(success: bool, checksumVerified: bool)

  /** The JSON codec. What it promises: decoding undoes encoding, no proper prefix of an encoded
      message decodes, and messages without file contents are small. */
  datatype Codec = Codec(toBytes: Message -> Bytes, fromBytes: Bytes -> Option<Message>) {
    ghost predicate Valid() {
      && (forall m :: fromBytes(toBytes(m)) == Some(m))
      && (forall m, k :: 0 <= k < |toBytes(m)| ==> fromBytes(toBytes(m)[..k]) == None)
      && (forall a :: |toBytes(FileTransferResponse(a))| <= MAX)
      && forall s, v :: |toBytes(TransferComplete(s, v))| <= MAX
    }
  }

  // ---- Framing ----

  function EncodeBE(n: nat): (b: Bytes)
    requires n < U32
    ensures |b| == 4
  {
    [n / 0x100_0000, n / 0x1_0000 % 256, n / 0x100 % 256, n % 256]
  }

  function DecodeBE(b: Bytes): nat
    requires |b| == 4
  {
    var b0: int, b1: int, b2: int := b[0], b[1], b[2];
    0x100_0000 * b0 + 0x1_0000 * b1 + 0x100 * b2 + b[3]
  }

  lemma DecodeEncodeBE(n: nat)
    requires n < U32
    ensures DecodeBE(EncodeBE(n)) == n
  {
    assert n / 0x1_0000 == 256 * (n / 0x100_0000) + n / 0x1_0000 % 256;
    assert n / 0x100 == 256 * (n / 0x1_0000) + n / 0x100 % 256;
    assert n == 256 * (n / 0x100) + n % 256;
  }

  /** A frame: the body's length, cut to 32 bits, and the body. */
  function Frame(c: Codec, m: Message): Bytes {
    EncodeBE(|c.toBytes(m)| % U32) + c.toBytes(m)
  }

  predicate Fits(c: Codec, m: Message) {
    |c.toBytes(m)| <= MAX
  }

  datatype Reading = Waiting | Failed | Got(message: Message, rest: Bytes)

  /** Receiving from what has arrived: `read_exact` waits for more until the stream has ended. */
  function Read(c: Codec, s: Bytes, ended: bool): (r: Reading)
    ensures r.Got? ==> |r.rest| < |s|
  {
    if |s| < 4 then (if ended then Failed else Waiting)
    else
      var len := DecodeBE(s[..4]);
      if len > MAX then Failed
      else if |s| < 4 + len then (if ended then Failed else Waiting)
      else
        match c.fromBytes(s[4..4 + len])
        case None => Failed
        case Some(m) => Got(m, s[4 + len..])
  }

  /** The first four bytes of a frame are the length of its body, the high byte first. */
  lemma FrameLayout(c: Codec, m: Message)
    ensures var f, n := Frame(c, m), |c.toBytes(m)| % 0x1_0000_0000;
      && |f| == 4 + |c.toBytes(m)| && f[4..] == c.toBytes(m)
      && f[0] == n / 0x100_0000 && f[1] == n / 0x1_0000 % 256 && f[2] == n / 0x100 % 256 && f[3] == n % 256
  {
  }

  /** A frame is received as its message, and what follows it stays, exactly when its body is at most
      100 MB long. */
  lemma FrameReads(c: Codec, m: Message, tail: Bytes, ended: bool)
    requires c.Valid()
    ensures Read(c, Frame(c, m) + tail, ended) == Got(m, tail) <==> |c.toBytes(m)| <= 104857600
    ensures !Fits(c, m) ==> Read(c, Frame(c, m) + tail, ended) == Failed
  {
    var body := c.toBytes(m);
    var len := |body| % U32;
    var s := Frame(c, m) + tail;
    DecodeEncodeBE(len);
    assert s[..4] == EncodeBE(len);
    assert s[4..4 + len] == body[..len];
    if |body| < U32 {
      assert body[..len] == body;
      assert s[4 + len..] == tail;
    }
  }

  /** More bytes arriving do not change what was read. */
  lemma ReadStable(c: Codec, s: Bytes, more: Bytes, ended: bool)
    requires Read(c, s, false).Got?
    ensures Read(c, s + more, ended) == Got(Read(c, s, false).message, Read(c, s, false).rest + more)
  {
    var len := DecodeBE(s[..4]);
    assert (s + more)[..4] == s[..4] && (s + more)[4..4 + len] == s[4..4 + len];
    assert (s + more)[4 + len..] == s[4 + len..] + more;
  }

  lemma ReadEnded(c: Codec, s: Bytes)
    requires Read(c, s, true).Got?
    ensures Read(c, s, false) == Read(c, s, true)
  {
  }

  function Frames(c: Codec, ms: seq<Message>): Bytes {
    if ms == [] then [] else Frame(c, ms[0]) + Frames(c, ms[1..])
  }

  /** One end of a stream: writing appends, reading takes from the front. */
  class ByteStream {
    const codec: Codec
    var bytes: Bytes

    constructor (codec: Codec)
      ensures this.codec == codec && bytes == []
    {
      this.codec, bytes := codec, [];
    }

    method Send(m: Message)
      modifies this
      ensures bytes == old(bytes) + Frame(codec, m)
    {
      var body := codec.toBytes(m);
      bytes := bytes + EncodeBE(|body| % U32);
      bytes := bytes + body;
    }

    /** Receive from a stream that has ended. */
    method Receive() returns (r: Option<Message>)
      modifies this
      ensures match Read(codec, old(bytes), true)
        case Got(m, rest) => r == Some(m) && bytes == rest
        case _ => r == None
    {
      if |bytes| < 4 {
        return None;
      }
      var len := DecodeBE(bytes[..4]);
      ghost var all := bytes;
      bytes := bytes[4..];
      if len > MAX {
        return None;
      }
      if |bytes| < len {
        return None;
      }
      var body := bytes[..len];
      bytes := bytes[len..];
      assert body == all[4..4 + len] && bytes == all[4 + len..];
      return codec.fromBytes(body);
    }
  }

  /** Receive messages until one cannot be received. */
  function ReadAll(c: Codec, s: Bytes): (seq<Message>, Bytes)
    decreases |s|
  {
    match Read(c, s, true)
    case Got(m, rest) => ([m] + ReadAll(c, rest).0, ReadAll(c, rest).1)
    case _ => ([], s)
  }

  lemma ReadAllStep(c: Codec, s: Bytes, m: Message, rest: Bytes)
    requires Read(c, s, true) == Got(m, rest)
    ensures ReadAll(c, s).0 == [m] + ReadAll(c, rest).0 && ReadAll(c, s).1 == ReadAll(c, rest).1
  {
  }

  /** Any concatenation of frames with bodies up to 100 MB is received as the same list of messages. */
  lemma {:induction false} FramesRead(c: Codec, ms: seq<Message>)
    requires c.Valid() && forall i :: 0 <= i < |ms| ==> Fits(c, ms[i])
    ensures ReadAll(c, Frames(c, ms)).0 == ms && ReadAll(c, Frames(c, ms)).1 == []
  {
    if ms == [] {
      assert Read(c, [], true) == Failed;
    } else {
      var rest := Frames(c, ms[1..]);
      FrameReads(c, ms[0], rest, true);
      ReadAllStep(c, Frames(c, ms), ms[0], rest);
      FramesRead(c, ms[1..]);
    }
  }

  // ---- The two parties ----

  datatype Sender = Start | AwaitAccept | AwaitDone | Sent(ok: bool)

  datatype Receiver = AwaitRequest | AwaitData(checksum: Bytes) | Received(ok: bool)

  /** Two first-in first-out byte streams between the parties, and the destination file. A party that
      has returned has ended its stream. */
  datatype State = State(sender: Sender, receiver: Receiver, toReceiver: Bytes, toSender: Bytes, dest: Option<Bytes>,
                         diskBroke: bool)

  datatype Transfer = Transfer(codec: Codec, h: HashFn, path: Bytes, file: Bytes, before: Option<Bytes>)

  function Request(t: Transfer): Message {
    FileTransferRequest(t.path, |t.file|, HexEncode(t.h(t.file)))
  }

  function Initial(t: Transfer): State {
    State(Start, AwaitRequest, [], [], t.before, false)
  }

  /** The sender's next step, when it has one. */
  function SenderStep(t: Transfer, s: State, ended: bool): Option<State> {
    match s.sender
    case Start => Some(s.(sender := AwaitAccept, toReceiver := s.toReceiver + Frame(t.codec, Request(t))))
    case AwaitAccept =>
      (match Read(t.codec, s.toSender, ended)
       case Waiting => None
       case Failed => Some(s.(sender := Sent(false)))
       case Got(m, rest) =>
         if m == FileTransferResponse(true) then
           Some(s.(sender := AwaitDone, toSender := rest,
                  toReceiver := s.toReceiver + Frame(t.codec, FileData(t.file))))
         else Some(s.(sender := Sent(false), toSender := rest)))
    case AwaitDone =>
      (match Read(t.codec, s.toSender, ended)
       case Waiting => None
       case Failed => Some(s.(sender := Sent(false)))
       case Got(m, rest) => Some(s.(sender := Sent(m == TransferComplete(true, true)), toSender := rest)))
    case Sent(_) => None
  }

  /** What writing the destination does: all of the data, or a prefix of it when the disk fails, or
      nothing at all when it fails before the file is created. */
  datatype Disk = Works | Breaks(written: Option<nat>)

  function Written(disk: Disk, data: Bytes, dest: Option<Bytes>): Option<Bytes> {
    match disk
    case Works => Some(data)
    case Breaks(None) => dest
    case Breaks(Some(n)) => if n <= |data| then Some(data[..n]) else Some(data)
  }

  function Reply(c: Codec, s: State, ok: bool, rest: Bytes, m: Message): State {
    s.(receiver := Received(ok), toReceiver := rest, toSender := s.toSender + Frame(c, m))
  }

  /** The receiver's next step, when it has one. */
  function ReceiverStep(c: Codec, h: HashFn, s: State, ended: bool, disk: Disk): Option<State> {
    match s.receiver
    case AwaitRequest =>
      (match Read(c, s.toReceiver, ended)
       case Waiting => None
       case Failed => Some(s.(receiver := Received(false)))
       case Got(m, rest) =>
         if m.FileTransferRequest? then
           Some(s.(receiver := AwaitData(m.checksum), toReceiver := rest,
                   toSender := s.toSender + Frame(c, FileTransferResponse(true))))
         else Some(Reply(c, s, false, rest, FileTransferResponse(false))))
    case AwaitData(checksum) =>
      (match Read(c, s.toReceiver, ended)
       case Waiting => None
       case Failed => Some(s.(receiver := Received(false)))
       case Got(m, rest) =>
         if !m.FileData? || HexEncode(h(m.data)) != checksum then
           Some(Reply(c, s, false, rest, TransferComplete(false, false)))
         else
           var dest := Written(disk, m.data, s.dest);
           if disk.Works? then Some(Reply(c, s.(dest := dest), true, rest, TransferComplete(true, true)))
           else Some(s.(receiver := Received(false), toReceiver := rest, dest := dest, diskBroke := true)))
    case Received(_) => None
  }

  datatype Turn = SenderTurn | ReceiverTurn(disk: Disk)

  function Step(t: Transfer, s: State, turn: Turn): Option<State> {
    match turn
    case SenderTurn => SenderStep(t, s, s.receiver.Received?)
    case ReceiverTurn(disk) => ReceiverStep(t.codec, t.h, s, s.sender.Sent?, disk)
  }

  ghost predicate Run(t: Transfer, turns: seq<Turn>, s: State) {
    if turns == [] then s == Initial(t)
    else
      var n := |turns| - 1;
      exists before :: Run(t, turns[..n], before) && Step(t, before, turns[n]) == Some(s)
  }

  // ---- Every run ends ----

  function Left(s: State): nat {
    (match s.sender
     case Start => 3
     case AwaitAccept => 2
     case AwaitDone => 1
     case Sent(_) => 0)
    +
    (match s.receiver
     case AwaitRequest => 2
     case AwaitData(_) => 1
     case Received(_) => 0)
  }

  lemma StepLeft(t: Transfer, s: State, turn: Turn)
    ensures Step(t, s, turn).Some? ==> Left(Step(t, s, turn).value) < Left(s)
  {
  }

  lemma {:induction false} RunsEnd(t: Transfer, turns: seq<Turn>, s: State)
    requires Run(t, turns, s)
    ensures |turns| + Left(s) <= 5
  {
    if turns != [] {
      var n := |turns| - 1;
      var before :| Run(t, turns[..n], before) && Step(t, before, turns[n]) == Some(s);
      RunsEnd(t, turns[..n], before);
      StepLeft(t, before, turns[n]);
    }
  }

  /** Both parties have returned. */
  predicate Ended(s: State) {
    s.sender.Sent? && s.receiver.Received?
  }

  // ---- What every run keeps ----

  ghost predicate Sound(t: Transfer, s: State) {
    var c := t.codec;
    match s.sender
    case Start => s == Initial(t)
    case AwaitAccept =>
      s.dest == t.before && !s.diskBroke &&
      (match s.receiver
       case AwaitRequest => s.toReceiver == Frame(c, Request(t)) && s.toSender == []
       case AwaitData(k) => Fits(c, Request(t)) && k == Request(t).checksum && s.toReceiver == []
                            && s.toSender == Frame(c, FileTransferResponse(true))
       case Received(ok) => !Fits(c, Request(t)) && !ok && s.toSender == [])
    case AwaitDone =>
      Fits(c, Request(t)) &&
      (match s.receiver
       case AwaitRequest => false
       case AwaitData(k) => k == Request(t).checksum && s.toReceiver == Frame(c, FileData(t.file)) && s.toSender == []
                            && s.dest == t.before && !s.diskBroke
       case Received(ok) => if ok then Delivered(t, s) && s.toSender == Frame(c, TransferComplete(true, true))
                            else s.toSender == [] && Undelivered(t, s))
    case Sent(sent) =>
      match s.receiver
      case Received(ok) => sent == ok && if ok then Delivered(t, s) else Undelivered(t, s)
      case _ => false
  }

  ghost predicate Delivered(t: Transfer, s: State) {
    s.dest == Some(t.file) && BothFit(t) && !s.diskBroke
  }

  predicate BothFit(t: Transfer) {
    Fits(t.codec, Request(t)) && Fits(t.codec, FileData(t.file))
  }

  /** A failed transfer leaves the destination alone, or with a prefix of the file when the disk broke. */
  ghost predicate Undelivered(t: Transfer, s: State) {
    if s.diskBroke then s.dest == t.before || (s.dest.Some? && s.dest.value <= t.file)
    else !BothFit(t) && s.dest == t.before
  }

  lemma SenderKeeps(t: Transfer, s: State)
    requires t.codec.Valid() && Sound(t, s) && SenderStep(t, s, s.receiver.Received?).Some?
    ensures Sound(t, SenderStep(t, s, s.receiver.Received?).value)
  {
    var c := t.codec;
    match s.sender
    case AwaitAccept =>
      FrameReads(c, FileTransferResponse(true), [], s.receiver.Received?);
      assert Frame(c, FileTransferResponse(true)) + [] == Frame(c, FileTransferResponse(true));
    case AwaitDone =>
      FrameReads(c, TransferComplete(true, true), [], s.receiver.Received?);
      assert Frame(c, TransferComplete(true, true)) + [] == Frame(c, TransferComplete(true, true));
    case _ =>
  }

  lemma ReceiverKeeps(t: Transfer, s: State, disk: Disk)
    requires t.codec.Valid() && Sound(t, s)
    requires ReceiverStep(t.codec, t.h, s, s.sender.Sent?, disk).Some?
    ensures Sound(t, ReceiverStep(t.codec, t.h, s, s.sender.Sent?, disk).value)
  {
    var c, ended := t.codec, s.sender.Sent?;
    match s.receiver
    case AwaitRequest =>
      FrameReads(c, Request(t), [], ended);
      assert Frame(c, Request(t)) + [] == Frame(c, Request(t));
    case AwaitData(_) =>
      FrameReads(c, FileData(t.file), [], ended);
      assert Frame(c, FileData(t.file)) + [] == Frame(c, FileData(t.file));
    case _ =>
  }

  lemma {:induction false} RunSound(t: Transfer, turns: seq<Turn>, s: State)
    requires t.codec.Valid() && Run(t, turns, s)
    ensures Sound(t, s)
  {
    if turns != [] {
      var n := |turns| - 1;
      var before :| Run(t, turns[..n], before) && Step(t, before, turns[n]) == Some(s);
      RunSound(t, turns[..n], before);
      match turns[n]
      case SenderTurn => SenderKeeps(t, before);
      case ReceiverTurn(disk) => ReceiverKeeps(t, before, disk);
    }
  }

  /** Until both have returned, one of them can go on. */
  lemma NeverStuck(t: Transfer, s: State, disk: Disk)
    requires t.codec.Valid() && Sound(t, s) && !Ended(s)
    ensures SenderStep(t, s, s.receiver.Received?).Some? || ReceiverStep(t.codec, t.h, s, s.sender.Sent?, disk).Some?
  {
    var c := t.codec;
    match s.sender
    case AwaitAccept =>
      FrameReads(c, Request(t), [], false);
      assert Frame(c, Request(t)) + [] == Frame(c, Request(t));
      FrameReads(c, FileTransferResponse(true), [], false);
      assert Frame(c, FileTransferResponse(true)) + [] == Frame(c, FileTransferResponse(true));
    case AwaitDone =>
      FrameReads(c, FileData(t.file), [], false);
      assert Frame(c, FileData(t.file)) + [] == Frame(c, FileData(t.file));
    case _ =>
  }

  /** Every run of the two parties takes at most five steps, cannot stop before both have returned, and
      then they agree. They succeed exactly when both messages fit their frames and the disk held, and
      then the destination is the source. */
  lemma TransferCorrect(t: Transfer, turns: seq<Turn>, s: State)
    requires t.codec.Valid() && Run(t, turns, s)
    ensures |turns| <= 5
    ensures (forall turn :: Step(t, s, turn) == None) ==> Ended(s)
    ensures Ended(s) ==> s.sender.ok == s.receiver.ok && (s.sender.ok <==> BothFit(t) && !s.diskBroke)
    ensures s.sender == Sent(true) ==> s.dest == Some(t.file)
    ensures s.dest == t.before || (s.dest.Some? && s.dest.value <= t.file)
  {
    RunsEnd(t, turns, s);
    RunSound(t, turns, s);
    if !Ended(s) {
      NeverStuck(t, s, Works);
      assert Step(t, s, SenderTurn).Some? || Step(t, s, ReceiverTurn(Works)).Some?;
    }
  }

  // ---- The receiver against any sender ----

  /** Bytes arrive, or the receiver takes a step, the stream having ended or not. */
  datatype Happening = Arrive(bytes: Bytes) | Act(ended: bool, disk: Disk)

  /** The receiver's state beside everything that ever arrived. */
  datatype Alone = Alone(state: State, seen: Bytes)

  function Happen(c: Codec, h: HashFn, a: Alone, e: Happening): Alone {
    match e
    case Arrive(bytes) => Alone(a.state.(toReceiver := a.state.toReceiver + bytes), a.seen + bytes)
    case Act(ended, disk) =>
      var next := ReceiverStep(c, h, a.state, ended, disk);
      if next.None? then a else Alone(next.value, a.seen)
  }

  function Happened(c: Codec, h: HashFn, a: Alone, es: seq<Happening>): Alone {
    if es == [] then a else Happen(c, h, Happened(c, h, a, es[..|es| - 1]), es[|es| - 1])
  }

  /** The first frame that arrived announced this digest. */
  ghost predicate Announced(c: Codec, seen: Bytes, checksum: Bytes, rest: Bytes) {
    match Read(c, seen, false)
    case Got(m, left) => m.FileTransferRequest? && m.checksum == checksum && left == rest
    case _ => false
  }

  /** The second frame carried this data, and it has the digest the first announced. */
  ghost predicate Verified(c: Codec, h: HashFn, seen: Bytes, data: Bytes) {
    exists checksum, rest :: Announced(c, seen, checksum, rest) && CarriesVerified(c, h, rest, data, checksum)
  }

  ghost predicate CarriesVerified(c: Codec, h: HashFn, s: Bytes, data: Bytes, checksum: Bytes) {
    match Read(c, s, false)
    case Got(m, _) => m == FileData(data) && HexEncode(h(data)) == checksum
    case _ => false
  }

  ghost predicate OnlyVerified(c: Codec, h: HashFn, before: Option<Bytes>, a: Alone) {
    match a.state.receiver
    case AwaitRequest => a.state.dest == before && a.state.toReceiver == a.seen
    case AwaitData(k) => a.state.dest == before && Announced(c, a.seen, k, a.state.toReceiver)
    case Received(ok) => AsWritten(c, h, before, a, ok)
  }

  /** Success means the announced data is at the destination; otherwise it is untouched, or a failing
      disk holds a prefix of announced data. */
  ghost predicate AsWritten(c: Codec, h: HashFn, before: Option<Bytes>, a: Alone, ok: bool) {
    || (!ok && a.state.dest == before)
    || exists data :: Verified(c, h, a.seen, data) && a.state.dest.Some? && a.state.dest.value <= data
                      && (ok ==> a.state.dest.value == data)
  }

  lemma AnnouncedStable(c: Codec, seen: Bytes, checksum: Bytes, rest: Bytes, more: Bytes)
    requires Announced(c, seen, checksum, rest)
    ensures Announced(c, seen + more, checksum, rest + more)
  {
    ReadStable(c, seen, more, false);
  }

  lemma VerifiedStable(c: Codec, h: HashFn, seen: Bytes, data: Bytes, more: Bytes)
    requires Verified(c, h, seen, data)
    ensures Verified(c, h, seen + more, data)
  {
    var checksum, rest :| Announced(c, seen, checksum, rest) && CarriesVerified(c, h, rest, data, checksum);
    AnnouncedStable(c, seen, checksum, rest, more);
    ReadStable(c, rest, more, false);
  }

  lemma ArrivalKeeps(c: Codec, h: HashFn, before: Option<Bytes>, a: Alone, bytes: Bytes)
    requires OnlyVerified(c, h, before, a)
    ensures OnlyVerified(c, h, before, Happen(c, h, a, Arrive(bytes)))
  {
    match a.state.receiver
    case AwaitRequest =>
    case AwaitData(k) => AnnouncedStable(c, a.seen, k, a.state.toReceiver, bytes);
    case Received(ok) =>
      if ok || a.state.dest != before {
        var data :| Verified(c, h, a.seen, data) && a.state.dest.Some? && a.state.dest.value <= data
                    && (ok ==> a.state.dest.value == data);
        VerifiedStable(c, h, a.seen, data, bytes);
      }
  }

  lemma ActKeeps(c: Codec, h: HashFn, before: Option<Bytes>, a: Alone, ended: bool, disk: Disk)
    requires OnlyVerified(c, h, before, a)
    ensures OnlyVerified(c, h, before, Happen(c, h, a, Act(ended, disk)))
  {
    var r := Read(c, a.state.toReceiver, ended);
    if r.Got? && ended {
      ReadEnded(c, a.state.toReceiver);
    }
    match a.state.receiver
    case AwaitRequest =>
    case AwaitData(k) =>
      if r.Got? && r.message.FileData? && HexEncode(h(r.message.data)) == k {
        assert CarriesVerified(c, h, a.state.toReceiver, r.message.data, k);
        assert Verified(c, h, a.seen, r.message.data);
      }
    case Received(_) =>
  }

  /** Whatever arrives, in whatever pieces: the receiver changes the destination only for data whose
      digest is the one announced, and returns success only with exactly that data in place. */
  lemma {:induction false} WritesOnlyVerified(c: Codec, h: HashFn, s: State, es: seq<Happening>)
    requires s.receiver == AwaitRequest
    ensures OnlyVerified(c, h, s.dest, Happened(c, h, Alone(s, s.toReceiver), es))
  {
    if es != [] {
      var n := |es| - 1;
      WritesOnlyVerified(c, h, s, es[..n]);
      var a := Happened(c, h, Alone(s, s.toReceiver), es[..n]);
      match es[n]
      case Arrive(bytes) => ArrivalKeeps(c, h, s.dest, a, bytes);
      case Act(ended, disk) => ActKeeps(c, h, s.dest, a, ended, disk);
    }
  }

  // ---- What each party tells the other ----

  /** A party waits only for bytes: with a whole frame before it, or the stream ended, it acts. */
  lemma PartiesAct(t: Transfer, s: State, ended: bool, disk: Disk)
    ensures ReceiverStep(t.codec, t.h, s, ended, disk) == None <==>
      s.receiver.Received? || Read(t.codec, s.toReceiver, ended) == Waiting
    ensures SenderStep(t, s, ended) == None <==>
      s.sender.Sent? || (!s.sender.Start? && Read(t.codec, s.toSender, ended) == Waiting)
  {
  }

  /** The messages taken from a stream: what arrived is the frames read, one after another, and what is
      left to read. */
  ghost predicate Took(c: Codec, seen: Bytes, got: seq<Message>, left: Bytes)
    decreases |got|
  {
    if got == [] then left == seen
    else
      exists rest :: Took(c, seen, got[..|got| - 1], rest) && Read(c, rest, false) == Got(got[|got| - 1], left)
  }

  lemma {:induction false} TookMore(c: Codec, seen: Bytes, got: seq<Message>, left: Bytes, more: Bytes)
    requires Took(c, seen, got, left)
    ensures Took(c, seen + more, got, left + more)
    decreases |got|
  {
    if got != [] {
      var n := |got| - 1;
      var rest :| Took(c, seen, got[..n], rest) && Read(c, rest, false) == Got(got[n], left);
      TookMore(c, seen, got[..n], rest, more);
      ReadStable(c, rest, more, false);
    }
  }

  lemma TookNext(c: Codec, seen: Bytes, got: seq<Message>, rest: Bytes, m: Message, left: Bytes, ended: bool)
    requires Took(c, seen, got, rest) && Read(c, rest, ended) == Got(m, left)
    ensures Took(c, seen, got + [m], left)
  {
    if ended {
      ReadEnded(c, rest);
    }
    assert (got + [m])[..|got|] == got;
  }

  lemma FramesSnoc(c: Codec, ms: seq<Message>, m: Message)
    ensures Frames(c, ms + [m]) == Frames(c, ms) + Frame(c, m)
    decreases ms
  {
    if ms == [] {
      assert Frames(c, [m]) == Frame(c, m) + Frames(c, [m][1..]);
    } else {
      FramesSnoc(c, ms[1..], m);
      assert (ms + [m])[1..] == ms[1..] + [m];
    }
  }

  /** The second message carries data with the digest that the first announced. */
  predicate Matches(h: HashFn, got: seq<Message>)
    requires |got| == 2
  {
    got[0].FileTransferRequest? && got[1].FileData? && HexEncode(h(got[1].data)) == got[0].checksum
  }

  /** The receiver has read `got` and sent `ms`. */
  ghost predicate ReceiverTold(c: Codec, h: HashFn, out: Bytes, a: Alone, got: seq<Message>, ms: seq<Message>) {
    && Took(c, a.seen, got, a.state.toReceiver) && a.state.toSender == out + Frames(c, ms)
    && match a.state.receiver
       case AwaitRequest => got == [] && ms == [] && !a.state.diskBroke
       case AwaitData(checksum) =>
         && |got| == 1 && got[0].FileTransferRequest? && got[0].checksum == checksum
         && ms == [FileTransferResponse(true)] && !a.state.diskBroke
       case Received(ok) => Concluded(h, a.state, ok, got, ms)
  }

  predicate Concluded(h: HashFn, s: State, ok: bool, got: seq<Message>, ms: seq<Message>) {
    match |got|
    case 0 => !ok && ms == [] && !s.diskBroke
    case 1 =>
      !ok && ms == [FileTransferResponse(got[0].FileTransferRequest?)] && !s.diskBroke
    case 2 =>
      && got[0].FileTransferRequest? && (s.diskBroke ==> Matches(h, got)) && (ok <==> Matches(h, got) && !s.diskBroke)
      && ms == [FileTransferResponse(true)] + (if ok then [TransferComplete(true, true)]
                                               else if Matches(h, got) then []
                                               else [TransferComplete(false, false)])
    case _ => false
  }

  lemma ReceiverArrival(c: Codec, h: HashFn, out: Bytes, a: Alone, got: seq<Message>, ms: seq<Message>, bytes: Bytes)
    requires ReceiverTold(c, h, out, a, got, ms)
    ensures ReceiverTold(c, h, out, Happen(c, h, a, Arrive(bytes)), got, ms)
  {
    TookMore(c, a.seen, got, a.state.toReceiver, bytes);
  }

  /** A request read, or something else. */
  lemma ReceiverFirst(c: Codec, h: HashFn, out: Bytes, a: Alone, m: Message, left: Bytes, ended: bool, disk: Disk)
    requires a.state.receiver.AwaitRequest? && ReceiverTold(c, h, out, a, [], [])
    requires Read(c, a.state.toReceiver, ended) == Got(m, left)
    ensures ReceiverTold(c, h, out, Happen(c, h, a, Act(ended, disk)), [m],
                         [FileTransferResponse(m.FileTransferRequest?)])
  {
    TookNext(c, a.seen, [], a.state.toReceiver, m, left, ended);
    FramesSnoc(c, [], FileTransferResponse(m.FileTransferRequest?));
    assert [] + [m] == [m];
  }

  /** What was announced read, or something else. */
  lemma ReceiverRefuses(c: Codec, h: HashFn, out: Bytes, a: Alone, k: Message, m: Message, left: Bytes, ended: bool,
                        disk: Disk)
    requires a.state.receiver.AwaitData? && ReceiverTold(c, h, out, a, [k], [FileTransferResponse(true)])
    requires Read(c, a.state.toReceiver, ended) == Got(m, left) && !Matches(h, [k, m])
    ensures ReceiverTold(c, h, out, Happen(c, h, a, Act(ended, disk)), [k, m],
                         [FileTransferResponse(true), TransferComplete(false, false)])
  {
    TookNext(c, a.seen, [k], a.state.toReceiver, m, left, ended);
    FramesSnoc(c, [FileTransferResponse(true)], TransferComplete(false, false));
    assert [k] + [m] == [k, m];
    assert [FileTransferResponse(true)] + [TransferComplete(false, false)]
        == [FileTransferResponse(true), TransferComplete(false, false)];
  }

  lemma ReceiverWrites(c: Codec, h: HashFn, out: Bytes, a: Alone, k: Message, m: Message, left: Bytes, ended: bool,
                       disk: Disk)
    returns (ms: seq<Message>)
    requires a.state.receiver.AwaitData? && ReceiverTold(c, h, out, a, [k], [FileTransferResponse(true)])
    requires Read(c, a.state.toReceiver, ended) == Got(m, left) && Matches(h, [k, m])
    ensures ReceiverTold(c, h, out, Happen(c, h, a, Act(ended, disk)), [k, m], ms)
  {
    ms := [FileTransferResponse(true)];
    TookNext(c, a.seen, [k], a.state.toReceiver, m, left, ended);
    assert [k] + [m] == [k, m];
    if disk.Works? {
      FramesSnoc(c, ms, TransferComplete(true, true));
      ms := ms + [TransferComplete(true, true)];
    }
  }

  lemma ReceiverActs(c: Codec, h: HashFn, out: Bytes, a: Alone, got: seq<Message>, ms: seq<Message>,
                     ended: bool, disk: Disk)
    returns (got': seq<Message>, ms': seq<Message>)
    requires ReceiverTold(c, h, out, a, got, ms)
    ensures ReceiverTold(c, h, out, Happen(c, h, a, Act(ended, disk)), got', ms')
  {
    got', ms' := got, ms;
    var r := Read(c, a.state.toReceiver, ended);
    if r.Got? && a.state.receiver.AwaitRequest? {
      got', ms' := [r.message], [FileTransferResponse(r.message.FileTransferRequest?)];
      ReceiverFirst(c, h, out, a, r.message, r.rest, ended, disk);
    } else if r.Got? && a.state.receiver.AwaitData? {
      assert got == [got[0]];
      got' := [got[0], r.message];
      if Matches(h, got') {
        ms' := ReceiverWrites(c, h, out, a, got[0], r.message, r.rest, ended, disk);
      } else {
        ms' := [FileTransferResponse(true), TransferComplete(false, false)];
        ReceiverRefuses(c, h, out, a, got[0], r.message, r.rest, ended, disk);
      }
    }
  }

  lemma {:induction false} ReceiverTells(c: Codec, h: HashFn, s: State, es: seq<Happening>)
    returns (got: seq<Message>, ms: seq<Message>)
    requires s.receiver == AwaitRequest && !s.diskBroke
    ensures ReceiverTold(c, h, s.toSender, Happened(c, h, Alone(s, s.toReceiver), es), got, ms)
  {
    got, ms := [], [];
    if es != [] {
      var n := |es| - 1;
      got, ms := ReceiverTells(c, h, s, es[..n]);
      var a := Happened(c, h, Alone(s, s.toReceiver), es[..n]);
      match es[n]
      case Arrive(bytes) => ReceiverArrival(c, h, s.toSender, a, got, ms, bytes);
      case Act(ended, disk) => got, ms := ReceiverActs(c, h, s.toSender, a, got, ms, ended, disk);
    }
  }

  /** What the receiver tells any peer, whatever arrives in whatever pieces. It reads at most two messages
      and sends at most two, which read back as sent. What is no request is refused. A request is accepted;
      data that is not what it announced, or no data, is answered with failure, and success is reported
      exactly when success is returned, which is when the announced data came and the disk held. */
  lemma ReceiverTellsTruth(c: Codec, h: HashFn, s: State, es: seq<Happening>)
    returns (got: seq<Message>, ms: seq<Message>)
    requires c.Valid() && s.receiver == AwaitRequest && !s.diskBroke
    ensures var a := Happened(c, h, Alone(s, s.toReceiver), es);
      && Took(c, a.seen, got, a.state.toReceiver) && |got| <= 2
      && a.state.toSender == s.toSender + Frames(c, ms) && ReadAll(c, Frames(c, ms)).0 == ms && |ms| <= |got|
      && (got != [] ==> ms != [] && ms[0] == FileTransferResponse(got[0].FileTransferRequest?))
      && (|got| == 2 <==> a.state.diskBroke || |ms| == 2)
      && (|got| == 2 && !Matches(h, got) ==>
            ms[1..] == [TransferComplete(false, false)] && a.state.receiver == Received(false))
      && (|got| == 2 && Matches(h, got) && !a.state.diskBroke ==> ms[1..] == [TransferComplete(true, true)])
      && (a.state.receiver == Received(true) <==> TransferComplete(true, true) in ms)
      && (a.state.receiver == Received(true) ==> |got| == 2 && Matches(h, got))
  {
    got, ms := ReceiverTells(c, h, s, es);
    FramesRead(c, ms);
  }

  /** The sender beside everything that ever arrived for it. */
  function HappenToSender(t: Transfer, a: Alone, e: Happening): Alone {
    match e
    case Arrive(bytes) => Alone(a.state.(toSender := a.state.toSender + bytes), a.seen + bytes)
    case Act(ended, _) =>
      var next := SenderStep(t, a.state, ended);
      if next.None? then a else Alone(next.value, a.seen)
  }

  function HappenedToSender(t: Transfer, a: Alone, es: seq<Happening>): Alone {
    if es == [] then a else HappenToSender(t, HappenedToSender(t, a, es[..|es| - 1]), es[|es| - 1])
  }

  /** The sender has read `got` and sent `ms`. */
  ghost predicate SenderTold(t: Transfer, out: Bytes, a: Alone, got: seq<Message>, ms: seq<Message>) {
    && Took(t.codec, a.seen, got, a.state.toSender) && a.state.toReceiver == out + Frames(t.codec, ms)
    && match a.state.sender
       case Start => got == [] && ms == []
       case AwaitAccept => got == [] && ms == [Request(t)]
       case AwaitDone => got == [FileTransferResponse(true)] && ms == [Request(t), FileData(t.file)]
       case Sent(ok) => SenderConcluded(t, ok, got, ms)
  }

  predicate SenderConcluded(t: Transfer, ok: bool, got: seq<Message>, ms: seq<Message>) {
    && |got| <= 2 && (|got| == 2 ==> got[0] == FileTransferResponse(true))
    && ms == (if got != [] && got[0] == FileTransferResponse(true) then [Request(t), FileData(t.file)]
              else [Request(t)])
    && (ok <==> got == [FileTransferResponse(true), TransferComplete(true, true)])
  }

  lemma SenderArrival(t: Transfer, out: Bytes, a: Alone, got: seq<Message>, ms: seq<Message>, bytes: Bytes)
    requires SenderTold(t, out, a, got, ms)
    ensures SenderTold(t, out, HappenToSender(t, a, Arrive(bytes)), got, ms)
  {
    TookMore(t.codec, a.seen, got, a.state.toSender, bytes);
  }

  lemma SenderStarts(t: Transfer, out: Bytes, a: Alone, ended: bool, disk: Disk)
    requires a.state.sender.Start? && SenderTold(t, out, a, [], [])
    ensures SenderTold(t, out, HappenToSender(t, a, Act(ended, disk)), [], [Request(t)])
  {
    FramesSnoc(t.codec, [], Request(t));
  }

  /** An answer to the request read. */
  lemma SenderFirst(t: Transfer, out: Bytes, a: Alone, m: Message, left: Bytes, ended: bool, disk: Disk)
    returns (ms: seq<Message>)
    requires a.state.sender.AwaitAccept? && SenderTold(t, out, a, [], [Request(t)])
    requires Read(t.codec, a.state.toSender, ended) == Got(m, left)
    ensures SenderTold(t, out, HappenToSender(t, a, Act(ended, disk)), [m], ms)
  {
    ms := [Request(t)];
    TookNext(t.codec, a.seen, [], a.state.toSender, m, left, ended);
    assert [] + [m] == [m];
    if m == FileTransferResponse(true) {
      FramesSnoc(t.codec, ms, FileData(t.file));
      ms := ms + [FileData(t.file)];
    }
  }

  /** An answer to the data read. */
  lemma SenderSecond(t: Transfer, out: Bytes, a: Alone, m: Message, left: Bytes, ended: bool, disk: Disk)
    requires a.state.sender.AwaitDone?
    requires SenderTold(t, out, a, [FileTransferResponse(true)], [Request(t), FileData(t.file)])
    requires Read(t.codec, a.state.toSender, ended) == Got(m, left)
    ensures SenderTold(t, out, HappenToSender(t, a, Act(ended, disk)), [FileTransferResponse(true), m],
                       [Request(t), FileData(t.file)])
  {
    var accept := FileTransferResponse(true);
    TookNext(t.codec, a.seen, [accept], a.state.toSender, m, left, ended);
    assert [accept] + [m] == [accept, m];
  }

  lemma SenderActs(t: Transfer, out: Bytes, a: Alone, got: seq<Message>, ms: seq<Message>, ended: bool, disk: Disk)
    returns (got': seq<Message>, ms': seq<Message>)
    requires SenderTold(t, out, a, got, ms)
    ensures SenderTold(t, out, HappenToSender(t, a, Act(ended, disk)), got', ms')
  {
    got', ms' := got, ms;
    var r := Read(t.codec, a.state.toSender, ended);
    if a.state.sender.Start? {
      ms' := [Request(t)];
      SenderStarts(t, out, a, ended, disk);
    } else if r.Got? && a.state.sender.AwaitAccept? {
      ms' := SenderFirst(t, out, a, r.message, r.rest, ended, disk);
      got' := [r.message];
    } else if r.Got? && a.state.sender.AwaitDone? {
      got' := [FileTransferResponse(true), r.message];
      SenderSecond(t, out, a, r.message, r.rest, ended, disk);
    }
  }

  lemma {:induction false} SenderTells(t: Transfer, s: State, es: seq<Happening>)
    returns (got: seq<Message>, ms: seq<Message>)
    requires s.sender == Start
    ensures SenderTold(t, s.toReceiver, HappenedToSender(t, Alone(s, s.toSender), es), got, ms)
  {
    got, ms := [], [];
    if es != [] {
      var n := |es| - 1;
      got, ms := SenderTells(t, s, es[..n]);
      var a := HappenedToSender(t, Alone(s, s.toSender), es[..n]);
      match es[n]
      case Arrive(bytes) => SenderArrival(t, s.toReceiver, a, got, ms, bytes);
      case Act(ended, disk) => got, ms := SenderActs(t, s.toReceiver, a, got, ms, ended, disk);
    }
  }

  /** What the sender makes of any peer's bytes. It first sends its request, sends the file exactly when
      that was accepted, and returns success exactly when the peer then reported success and a verified
      digest. */
  lemma SenderBelievesOnly(t: Transfer, s: State, es: seq<Happening>) returns (got: seq<Message>, ms: seq<Message>)
    requires s.sender == Start
    ensures var a := HappenedToSender(t, Alone(s, s.toSender), es);
      && Took(t.codec, a.seen, got, a.state.toSender) && |got| <= 2
      && a.state.toReceiver == s.toReceiver + Frames(t.codec, ms) && |ms| <= 2
      && (ms != [] <==> !a.state.sender.Start?)
      && (ms != [] ==> ms[0] == FileTransferRequest(t.path, |t.file|, HexEncode(t.h(t.file))))
      && (|ms| == 2 <==> got != [] && got[0] == FileTransferResponse(true))
      && (|ms| == 2 ==> ms[1] == FileData(t.file))
      && (a.state.sender == Sent(true) <==> got == [FileTransferResponse(true), TransferComplete(true, true)])
      && (got != [] && got[0] != FileTransferResponse(true) ==> a.state.sender == Sent(false) && |got| == 1)
      && (|got| == 2 ==> a.state.sender.Sent?)
  {
    got, ms := SenderTells(t, s, es);
  }
}
