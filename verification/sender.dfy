/**
  The sending side of the link protocol (src/Sender.java): every line of the
  input is cut into slices of at most 250 bytes, each slice goes out as an
  information frame numbered by a 3-bit counter, and the sender then polls for
  replies until its deadline. A matching ACK ends the wait, every REJ resends the
  frame at once, and a wait that ends without the ACK resends the frame one last
  time; the sender moves on to the next slice in every case. After the last line
  an end frame goes out, carrying whatever the counter holds.

  The clock is replaced by the number of reads each wait gets before its deadline
  (`deadlines`, one entry per wait), and the link by the stream of replies the
  reads return (`inbox`, where `null` is a read that returned nothing) and the
  sequence of frame values written to it (`out`).
*/
module Sending {
  import opened Checksum
  import opened Frames

  /** `FRAME_SIZE_MAX`: a 256-byte frame less its 6 fixed bytes (two flags, type, number, CRC). */
  const FrameSizeMax: nat := 250

  function Min(a: int, b: int): int {
    if a <= b then a else b
  }

  // ---------------------------------------------------------------------------
  // Slicing a line
  // ---------------------------------------------------------------------------

  /** The slices `sendFrame` cuts `data` into: front to back, `min(250, remaining)` bytes each. */
  function Chunks(data: seq<bv8>): seq<seq<bv8>>
    decreases |data|
  {
    if data == [] then []
    else
      var size := Min(FrameSizeMax, |data|);
      [data[..size]] + Chunks(data[size..])
  }

  function Flatten(cs: seq<seq<bv8>>): seq<bv8>
    decreases |cs|
  {
    if cs == [] then [] else cs[0] + Flatten(cs[1..])
  }

  /**
    The slices are non-empty, at most 250 bytes each, concatenate back to the
    line, and there are ⌈|data| / 250⌉ of them (none for an empty line).
  */
  lemma {:induction false} ChunksCover(data: seq<bv8>)
    ensures Flatten(Chunks(data)) == data
    ensures forall k :: 0 <= k < |Chunks(data)| ==> 0 < |Chunks(data)[k]| <= FrameSizeMax
    ensures |Chunks(data)| == (|data| + FrameSizeMax - 1) / FrameSizeMax
    decreases |data|
  {
    if data != [] {
      var size := Min(FrameSizeMax, |data|);
      ChunksCover(data[size..]);
      assert data[..size] + data[size..] == data;
    }
  }

  /** One iteration of the outer loop at `position` takes the next slice off the rest of the line. */
  lemma ChunksAt(data: seq<bv8>, position: nat)
    requires position < |data|
    ensures var size := Min(FrameSizeMax, |data| - position);
      Chunks(data[position..]) == [data[position..position + size]] + Chunks(data[position + size..])
  {
    var size := Min(FrameSizeMax, |data| - position);
    assert data[position..][..size] == data[position..position + size];
    assert data[position..][size..] == data[position + size..];
  }

  // ---------------------------------------------------------------------------
  // Waiting for a reply
  // ---------------------------------------------------------------------------

  /** The `k`-th read of the reply stream; a read past its end returns nothing. */
  function Read(inbox: seq<Trame?>, k: nat): Trame? {
    if k < |inbox| then inbox[k] else null
  }

  /** The reply stream after `k` reads. */
  function Drop(inbox: seq<Trame?>, k: nat): seq<Trame?> {
    if k < |inbox| then inbox[k..] else []
  }

  /** An ACK for frame `num`: the only reply that ends a wait. */
  predicate IsAck(t: Trame?, num: bv8) {
    t != null && t.kind == A && t.num == num
  }

  /** A REJ, whatever number it carries. */
  predicate IsRej(t: Trame?) {
    t != null && t.kind == R
  }

  /** How a wait ended: with the ACK or not, after how many REJs, and the replies left unread. */
  datatype Waited = Waited(acked: bool, rejects: nat, rest: seq<Trame?>)

  /**
    The polling loop of `sendFrame` for frame `num`, with `polls` reads left
    before the deadline and `rejects` REJs seen so far.
  */
  function Poll(num: bv8, inbox: seq<Trame?>, polls: nat, rejects: nat): Waited
    decreases polls
  {
    if polls == 0 then Waited(false, rejects, inbox)
    else if IsAck(Read(inbox, 0), num) then Waited(true, rejects, Drop(inbox, 1))
    else Poll(num, Drop(inbox, 1), polls - 1, if IsRej(Read(inbox, 0)) then rejects + 1 else rejects)
  }

  /** The first `n` reads. */
  function Window(inbox: seq<Trame?>, n: nat): seq<Trame?> {
    seq(n, k requires 0 <= k < n => Read(inbox, k))
  }

  /** The number of REJs among some replies. */
  function CountRej(ts: seq<Trame?>): nat
    decreases |ts|
  {
    if ts == [] then 0 else (if IsRej(ts[0]) then 1 else 0) + CountRej(ts[1..])
  }

  lemma ReadDrop(inbox: seq<Trame?>, k: nat)
    ensures Read(Drop(inbox, 1), k) == Read(inbox, k + 1)
  {
  }

  lemma DropDrop(inbox: seq<Trame?>, k: nat)
    ensures Drop(Drop(inbox, 1), k) == Drop(inbox, k + 1)
  {
    if k + 1 < |inbox| {
      assert inbox[1..][k..] == inbox[k + 1..];
    }
  }

  lemma WindowCons(inbox: seq<Trame?>, n: nat)
    requires n > 0
    ensures CountRej(Window(inbox, n)) ==
      (if IsRej(Read(inbox, 0)) then 1 else 0) + CountRej(Window(Drop(inbox, 1), n - 1))
  {
    assert Window(inbox, n)[1..] == Window(Drop(inbox, 1), n - 1) by {
      forall k | 0 <= k < n - 1
        ensures Window(inbox, n)[1..][k] == Window(Drop(inbox, 1), n - 1)[k]
      {
        ReadDrop(inbox, k);
      }
    }
  }

  /**
    A wait with `polls` reads before its deadline ends with the ACK exactly when
    one of those reads returns an ACK for the frame; ACKs for other numbers, REJs
    and empty reads do not end it.
  */
  lemma {:induction false} PollAcked(num: bv8, inbox: seq<Trame?>, polls: nat, rejects: nat)
    ensures Poll(num, inbox, polls, rejects).acked <==> exists k :: 0 <= k < polls && IsAck(Read(inbox, k), num)
    decreases polls
  {
    if polls > 0 && !IsAck(Read(inbox, 0), num) {
      var tail := Drop(inbox, 1);
      PollAcked(num, tail, polls - 1, if IsRej(Read(inbox, 0)) then rejects + 1 else rejects);
      if Poll(num, inbox, polls, rejects).acked {
        var k :| 0 <= k < polls - 1 && IsAck(Read(tail, k), num);
        ReadDrop(inbox, k);
      } else {
        forall k | 0 < k < polls
          ensures !IsAck(Read(inbox, k), num)
        {
          ReadDrop(inbox, k - 1);
        }
      }
    }
  }

  /**
    A wait that runs to its deadline consumes exactly its `polls` reads, however
    many REJs came in (the deadline is not pushed back), and counts every REJ
    among them.
  */
  lemma {:induction false} PollTimeout(num: bv8, inbox: seq<Trame?>, polls: nat, rejects: nat)
    requires !Poll(num, inbox, polls, rejects).acked
    ensures Poll(num, inbox, polls, rejects) == Waited(false, rejects + CountRej(Window(inbox, polls)), Drop(inbox, polls))
    decreases polls
  {
    if polls == 0 {
      assert Window(inbox, 0) == [];
    } else {
      var tail := Drop(inbox, 1);
      PollTimeout(num, tail, polls - 1, if IsRej(Read(inbox, 0)) then rejects + 1 else rejects);
      WindowCons(inbox, polls);
      DropDrop(inbox, polls - 1);
    }
  }

  /**
    A wait whose `k`-th read is the first ACK for the frame stops right after it,
    having counted the REJs before it.
  */
  lemma {:induction false} PollFirstAck(num: bv8, inbox: seq<Trame?>, polls: nat, rejects: nat, k: nat)
    requires k < polls && IsAck(Read(inbox, k), num)
    requires forall j :: 0 <= j < k ==> !IsAck(Read(inbox, j), num)
    ensures Poll(num, inbox, polls, rejects) == Waited(true, rejects + CountRej(Window(inbox, k)), Drop(inbox, k + 1))
    decreases polls
  {
    if k == 0 {
      assert Window(inbox, 0) == [];
    } else {
      var tail := Drop(inbox, 1);
      assert !IsAck(Read(inbox, 0), num);
      ReadDrop(inbox, k - 1);
      forall j | 0 <= j < k - 1
        ensures !IsAck(Read(tail, j), num)
      {
        ReadDrop(inbox, j);
      }
      PollFirstAck(num, tail, polls - 1, if IsRej(Read(inbox, 0)) then rejects + 1 else rejects, k - 1);
      WindowCons(inbox, k);
      DropDrop(inbox, k);
    }
  }

  // ---------------------------------------------------------------------------
  // Sending slices
  // ---------------------------------------------------------------------------

  /**
    A frame as the sender's log records it: type, number and data. The checksum
    that goes with them is the one the `Trame` constructor computed from them.
  */
  datatype Sent = Sent(kind: TrameType, num: bv8, data: seq<bv8>)

  /** What `t` puts on the link, now. */
  function SentOf(t: Trame): Sent
    reads t.donne
  {
    Sent(t.kind, t.num, t.donne[..])
  }

  /**
    What the sender side of the link holds between two slices: the counter, the
    frames written so far, the replies not yet read, and the reads each later
    wait gets.
  */
  datatype Link = Link(num: bv8, out: seq<Sent>, inbox: seq<Trame?>, deadlines: seq<nat>)

  /** The counter as `sendFrame` uses it: 8 is taken back to 0 before numbering a slice. */
  function Wrap(n: bv8): bv8 {
    if n == 8 then 0 else n
  }

  /** The reads the next wait gets before its deadline; none once the list runs out. */
  function NextReads(deadlines: seq<nat>): nat {
    if deadlines == [] then 0 else deadlines[0]
  }

  function LaterReads(deadlines: seq<nat>): seq<nat> {
    if deadlines == [] then [] else deadlines[1..]
  }

  function Repeat(f: Sent, c: nat): seq<Sent> {
    seq(c, _ => f)
  }

  /** How often a slice's frame goes out: once, once per REJ, and once more without the ACK. */
  function Copies(w: Waited): nat {
    1 + w.rejects + (if w.acked then 0 else 1)
  }

  /** The wait that follows the first transmission of the next slice. */
  function NextWait(s: Link): Waited {
    Poll(Wrap(s.num), s.inbox, NextReads(s.deadlines), 0)
  }

  /** One iteration of the outer loop of `sendFrame`, sending `chunk`. */
  function Round(s: Link, chunk: seq<bv8>): Link {
    var n := Wrap(s.num);
    var w := NextWait(s);
    Link(n + 1, s.out + Repeat(Sent(I, n, chunk), Copies(w)), w.rest, LaterReads(s.deadlines))
  }

  /** Repeating a frame once more, at either end. */
  lemma RepeatMore(f: Sent, c: nat)
    ensures [f] + Repeat(f, c) == Repeat(f, c + 1)
    ensures Repeat(f, c) + [f] == Repeat(f, c + 1)
  {
  }

  /**
    The transmissions of one frame, in the order `sendFrame` makes them: once,
    once more per REJ during the wait, and once more if the wait ended without
    the ACK.
  */
  lemma CopiesInOrder(frame: Sent, w: Waited, out0: seq<Sent>, out: seq<Sent>)
    requires out == out0 + [frame] + Repeat(frame, w.rejects) + (if w.acked then [] else [frame])
    ensures out == out0 + Repeat(frame, Copies(w))
  {
    RepeatMore(frame, w.rejects);
    RepeatMore(frame, w.rejects + 1);
    if w.acked {
      assert out == out0 + ([frame] + Repeat(frame, w.rejects));
    } else {
      assert out == out0 + (([frame] + Repeat(frame, w.rejects)) + [frame]);
    }
  }

  /** Sending the slices `cs` one after the other. */
  function SendChunks(s: Link, cs: seq<seq<bv8>>): Link
    decreases |cs|
  {
    if cs == [] then s else SendChunks(Round(s, cs[0]), cs[1..])
  }

  /** `sendFrame(data)`. */
  function SendLine(s: Link, data: seq<bv8>): Link {
    SendChunks(s, Chunks(data))
  }

  /** The loop of `createFrame`: every line in turn. */
  function SendLines(s: Link, lines: seq<seq<bv8>>): Link
    decreases |lines|
  {
    if lines == [] then s else SendLines(SendLine(s, lines[0]), lines[1..])
  }

  /** `createFrame`: every line, then the end frame with the current counter, which then moves on. */
  function Session(s: Link, lines: seq<seq<bv8>>): Link {
    var t := SendLines(s, lines);
    t.(num := t.num + 1, out := t.out + [Sent(F, t.num, [])])
  }

  // ---------------------------------------------------------------------------
  // What goes out
  // ---------------------------------------------------------------------------

  /** The frame each slice gets at its first transmission; it depends on the counter and the data only. */
  function InfoFrames(num: bv8, cs: seq<seq<bv8>>): (fs: seq<Sent>)
    ensures |fs| == |cs|
    decreases |cs|
  {
    if cs == [] then [] else [Sent(I, Wrap(num), cs[0])] + InfoFrames(Wrap(num) + 1, cs[1..])
  }

  /** The counter after sending the slices `cs`; it depends on the counter and the number of slices only. */
  function NumAfter(num: bv8, cs: seq<seq<bv8>>): bv8
    decreases |cs|
  {
    if cs == [] then num else NumAfter(Wrap(num) + 1, cs[1..])
  }

  /** How often each slice's frame goes out: this is where the replies come in. */
  function CopiesOf(s: Link, cs: seq<seq<bv8>>): (copies: seq<nat>)
    ensures |copies| == |cs|
    ensures forall k :: 0 <= k < |cs| ==> copies[k] >= 1
    decreases |cs|
  {
    if cs == [] then [] else [Copies(NextWait(s))] + CopiesOf(Round(s, cs[0]), cs[1..])
  }

  /** Each frame of `fs`, repeated as often as `copies` says. */
  function Expand(fs: seq<Sent>, copies: seq<nat>): seq<Sent>
    requires |fs| == |copies|
    decreases |fs|
  {
    if fs == [] then [] else Repeat(fs[0], copies[0]) + Expand(fs[1..], copies[1..])
  }

  lemma ExpandCons(f: Sent, fs: seq<Sent>, c: nat, copies: seq<nat>)
    requires |fs| == |copies|
    ensures Expand([f] + fs, [c] + copies) == Repeat(f, c) + Expand(fs, copies)
  {
    assert ([f] + fs)[1..] == fs;
    assert ([c] + copies)[1..] == copies;
  }

  /**
    Whatever the replies, the sender goes through every slice: the frames that go
    out are the slices' frames in order, each as often as `CopiesOf` says, which
    is at least once. The replies decide only how many copies of each frame go
    out, never which frames or in which order.
  */
  lemma {:induction false} SendChunksOut(s: Link, cs: seq<seq<bv8>>)
    ensures SendChunks(s, cs).out == s.out + Expand(InfoFrames(s.num, cs), CopiesOf(s, cs))
    decreases |cs|
  {
    if cs == [] {
      assert s.out + Expand([], []) == s.out;
    } else {
      var t := Round(s, cs[0]);
      var f := InfoFrames(s.num, cs)[0];
      var c := CopiesOf(s, cs)[0];
      SendChunksCons(s, cs);
      SendChunksOut(t, cs[1..]);
      var rest := Expand(InfoFrames(t.num, cs[1..]), CopiesOf(t, cs[1..]));
      ExpandCons(f, InfoFrames(t.num, cs[1..]), c, CopiesOf(t, cs[1..]));
      assert s.out + Repeat(f, c) + rest == s.out + (Repeat(f, c) + rest);
    }
  }

  /** The first slice of a run: its round, its frame and its number of copies. */
  lemma SendChunksCons(s: Link, cs: seq<seq<bv8>>)
    requires cs != []
    ensures var t := Round(s, cs[0]);
      && SendChunks(s, cs) == SendChunks(t, cs[1..])
      && InfoFrames(s.num, cs) == [InfoFrames(s.num, cs)[0]] + InfoFrames(t.num, cs[1..])
      && CopiesOf(s, cs) == [CopiesOf(s, cs)[0]] + CopiesOf(t, cs[1..])
      && t.out == s.out + Repeat(InfoFrames(s.num, cs)[0], CopiesOf(s, cs)[0])
  {
  }

  /** The counter after a run of slices depends on the counter and the number of slices only. */
  lemma {:induction false} SendChunksNum(s: Link, cs: seq<seq<bv8>>)
    ensures SendChunks(s, cs).num == NumAfter(s.num, cs)
    decreases |cs|
  {
    if cs != [] {
      SendChunksNum(Round(s, cs[0]), cs[1..]);
    }
  }

  /**
    A round whose wait sees no ACK for the slice's number before the deadline:
    the frame goes out once, once more for every REJ among the replies read, and
    once more at the timeout, and the wait consumes all its reads.
  */
  lemma RoundTimeout(s: Link, chunk: seq<bv8>)
    requires forall k :: 0 <= k < NextReads(s.deadlines) ==> !IsAck(Read(s.inbox, k), Wrap(s.num))
    ensures var polls := NextReads(s.deadlines);
      Round(s, chunk).out == s.out + Repeat(Sent(I, Wrap(s.num), chunk), 2 + CountRej(Window(s.inbox, polls)))
    ensures Round(s, chunk).inbox == Drop(s.inbox, NextReads(s.deadlines))
  {
    var polls := NextReads(s.deadlines);
    PollAcked(Wrap(s.num), s.inbox, polls, 0);
    PollTimeout(Wrap(s.num), s.inbox, polls, 0);
  }

  /**
    A round whose wait sees the first ACK for the slice's number at read `k`:
    the frame goes out once and once more for every REJ read before that ACK,
    and the reads after it are left for the next round.
  */
  lemma RoundAcked(s: Link, chunk: seq<bv8>, k: nat)
    requires k < NextReads(s.deadlines) && IsAck(Read(s.inbox, k), Wrap(s.num))
    requires forall j :: 0 <= j < k ==> !IsAck(Read(s.inbox, j), Wrap(s.num))
    ensures Round(s, chunk).out == s.out + Repeat(Sent(I, Wrap(s.num), chunk), 1 + CountRej(Window(s.inbox, k)))
    ensures Round(s, chunk).inbox == Drop(s.inbox, k + 1)
  {
    PollFirstAck(Wrap(s.num), s.inbox, NextReads(s.deadlines), 0, k);
  }

  /** Sending two runs of slices is sending them back to back. */
  lemma {:induction false} SendChunksAppend(s: Link, c1: seq<seq<bv8>>, c2: seq<seq<bv8>>)
    ensures SendChunks(s, c1 + c2) == SendChunks(SendChunks(s, c1), c2)
    decreases |c1|
  {
    if c1 == [] {
      assert c1 + c2 == c2;
    } else {
      assert (c1 + c2)[0] == c1[0];
      assert (c1 + c2)[1..] == c1[1..] + c2;
      SendChunksAppend(Round(s, c1[0]), c1[1..], c2);
    }
  }

  /** Every slice of every line, in order. */
  function AllChunks(lines: seq<seq<bv8>>): seq<seq<bv8>>
    decreases |lines|
  {
    if lines == [] then [] else Chunks(lines[0]) + AllChunks(lines[1..])
  }

  /** Line boundaries do not matter: the lines go out as one run of slices, numbered straight through. */
  lemma {:induction false} SendLinesFlat(s: Link, lines: seq<seq<bv8>>)
    ensures SendLines(s, lines) == SendChunks(s, AllChunks(lines))
    decreases |lines|
  {
    if lines != [] {
      SendLinesFlat(SendLine(s, lines[0]), lines[1..]);
      SendChunksAppend(s, Chunks(lines[0]), AllChunks(lines[1..]));
    }
  }

  /** Every first transmission is an information frame holding its slice. */
  lemma {:induction false} InfoFramesHoldSlices(num: bv8, cs: seq<seq<bv8>>)
    ensures forall k :: 0 <= k < |cs| ==>
      InfoFrames(num, cs)[k].kind == I && InfoFrames(num, cs)[k].data == cs[k]
    decreases |cs|
  {
    if cs != [] {
      InfoFramesHoldSlices(Wrap(num) + 1, cs[1..]);
    }
  }

  /**
    From a counter in 0..8, the slices are numbered consecutively mod 8 from the
    wrapped counter, all in 0..7, and the counter ends one past the last number,
    so in 1..8.
  */
  lemma {:induction false} InfoFramesNumbered(num: bv8, cs: seq<seq<bv8>>)
    requires num <= 8
    ensures forall k :: 0 <= k < |cs| ==> InfoFrames(num, cs)[k].num == After(Wrap(num), k) < 8
    ensures cs == [] ==> NumAfter(num, cs) == num
    ensures cs != [] ==> NumAfter(num, cs) == After(Wrap(num), |cs| - 1) + 1
    decreases |cs|
  {
    if cs != [] {
      var n := Wrap(num);
      var rest := InfoFrames(n + 1, cs[1..]);
      InfoFramesNumbered(n + 1, cs[1..]);
      assert Wrap(n + 1) == NextNum(n);
      assert InfoFrames(num, cs) == [Sent(I, n, cs[0])] + rest;
      assert NumAfter(num, cs) == NumAfter(n + 1, cs[1..]);
      forall k | 0 <= k < |cs|
        ensures InfoFrames(num, cs)[k].num == After(n, k) < 8
      {
        if k > 0 {
          AfterShift(n, k - 1);
          assert InfoFrames(num, cs)[k] == rest[k - 1];
        }
        AfterInRange(n, k);
      }
      if |cs| > 1 {
        AfterShift(n, |cs| - 2);
      }
    }
  }

  lemma {:induction false} AfterInRange(n0: bv8, k: nat)
    requires n0 < 8
    ensures After(n0, k) < 8
  {
    if k > 0 {
      AfterInRange(n0, k - 1);
      assert After(n0, k) == NextNum(After(n0, k - 1));
      NextNumAsInt(After(n0, k - 1));
    }
  }

  /**
    A whole session: the slices of all lines go out as one run, each frame at
    least once, and then one end frame with empty data carrying the counter as
    it stands; the counter moves on once more.
  */
  lemma SessionOut(s: Link, lines: seq<seq<bv8>>)
    ensures var cs := AllChunks(lines);
      && Session(s, lines).out == s.out + Expand(InfoFrames(s.num, cs), CopiesOf(s, cs)) + [Sent(F, NumAfter(s.num, cs), [])]
      && Session(s, lines).num == NumAfter(s.num, cs) + 1
      && (forall k :: 0 <= k < |cs| ==> CopiesOf(s, cs)[k] >= 1)
  {
    SendLinesFlat(s, lines);
    SendChunksOut(s, AllChunks(lines));
    SendChunksNum(s, AllChunks(lines));
  }

  /**
    From a fresh sender the `k`-th slice of the input is numbered `k mod 8`. The
    end frame's number is 0 when there was no data, 8 exactly when the last
    information frame was numbered 7, and never more than 8.
  */
  lemma FreshNumbering(cs: seq<seq<bv8>>)
    ensures forall k :: 0 <= k < |cs| ==> InfoFrames(0, cs)[k].num == (k % 8) as bv8
    ensures NumAfter(0, cs) <= 8
    ensures cs == [] ==> NumAfter(0, cs) == 0
    ensures cs != [] ==> (NumAfter(0, cs) == 8 <==> InfoFrames(0, cs)[|cs| - 1].num == 7)
  {
    InfoFramesNumbered(0, cs);
    forall k | 0 <= k < |cs|
      ensures InfoFrames(0, cs)[k].num == (k % 8) as bv8
    {
      AfterFromZero(k);
    }
  }

  /**
    From a fresh sender the counter ends a session at most at 9, and at 9 exactly
    when the end frame went out numbered 8.
  */
  lemma SessionCounter(s: Link, lines: seq<seq<bv8>>)
    requires s.num == 0
    ensures Session(s, lines).num <= 9
    ensures Session(s, lines).num == 9 <==> NumAfter(0, AllChunks(lines)) == 8
  {
    SessionOut(s, lines);
    FreshNumbering(AllChunks(lines));
  }

  // ---------------------------------------------------------------------------
  // The sender
  // ---------------------------------------------------------------------------

  /** `Sender`, with the connection replaced by the reply stream and the frames written. */
  class Sender {
    /** The counter: 0 to 8, taken back to 0 only when a slice is about to be numbered. */
    var frameNum: bv8
    /** The frames written to the link, in order. */
    var out: seq<Sent>
    /** The replies the reads will return, in order. */
    var inbox: seq<Trame?>
    /** For each wait in turn, the number of reads it gets before its deadline. */
    var deadlines: seq<nat>
    /** The connection has been closed. */
    var closed: bool

    function State(): Link
      reads this
    {
      Link(frameNum, out, inbox, deadlines)
    }

    /** A sender whose counter starts at 0. */
    constructor (inbox: seq<Trame?>, deadlines: seq<nat>)
      ensures State() == Link(0, [], inbox, deadlines) && !closed
    {
      frameNum := 0;
      out := [];
      this.inbox := inbox;
      this.deadlines := deadlines;
      closed := false;
    }

    /** `envoieTrame`: the frame, as it is now, goes out. */
    method Emit(t: Trame)
      modifies this
      ensures out == old(out) + [SentOf(t)]
      ensures frameNum == old(frameNum) && inbox == old(inbox) && deadlines == old(deadlines)
      ensures closed == old(closed)
    {
      out := out + [SentOf(t)];
    }

    /** `recoitTrame`: the next reply, or nothing. */
    method Receive() returns (t: Trame?)
      modifies this
      ensures t == Read(old(inbox), 0)
      ensures inbox == Drop(old(inbox), 1)
      ensures frameNum == old(frameNum) && out == old(out) && deadlines == old(deadlines)
      ensures closed == old(closed)
    {
      if inbox == [] {
        t := null;
      } else {
        t := inbox[0];
        inbox := inbox[1..];
      }
    }

    /** Starting the clock: the number of reads this wait gets before the deadline. */
    method StartTimer() returns (polls: nat)
      modifies this
      ensures polls == NextReads(old(deadlines))
      ensures deadlines == LaterReads(old(deadlines))
      ensures frameNum == old(frameNum) && out == old(out) && inbox == old(inbox)
      ensures closed == old(closed)
    {
      if deadlines == [] {
        polls := 0;
      } else {
        polls := deadlines[0];
        deadlines := deadlines[1..];
      }
    }

    /**
      The polling loop of `sendFrame` after `trame` went out: a matching ACK ends
      it, a REJ resends `trame`, anything else is skipped, until the deadline.
    */
    method AwaitReply(trame: Trame) returns (acked: bool)
      modifies this
      ensures var w := Poll(trame.num, old(inbox), NextReads(old(deadlines)), 0);
        acked == w.acked && inbox == w.rest && out == old(out) + Repeat(SentOf(trame), w.rejects)
      ensures frameNum == old(frameNum) && deadlines == LaterReads(old(deadlines))
      ensures closed == old(closed)
    {
      ghost var w := Poll(trame.num, inbox, NextReads(deadlines), 0);
      ghost var out0 := out;
      ghost var frame := SentOf(trame);
      var polls := StartTimer();
      ghost var rejects := 0;
      var polled := 0;
      acked := false;
      while polled < polls
        invariant polled <= polls
        invariant Poll(trame.num, inbox, polls - polled, rejects) == w
        invariant out == out0 + Repeat(frame, rejects)
        invariant frameNum == old(frameNum) && deadlines == LaterReads(old(deadlines))
        invariant closed == old(closed) && !acked
      {
        var ack := Receive();
        polled := polled + 1;
        if ack != null && ack.GetType() == Code(A) && ack.num == trame.num {
          CodeInjective(ack.kind, A);
          acked := true;
          break;
        } else if ack != null && ack.GetType() == Code(R) {
          CodeInjective(ack.kind, R);
          CodeInjective(ack.kind, A);
          Emit(trame);
          rejects := rejects + 1;
        } else if ack != null {
          CodeInjective(ack.kind, R);
          CodeInjective(ack.kind, A);
        }
      }
    }

    /**
      Sending `trame` and seeing it through its wait: it goes out, it is resent
      on every REJ, and once more if no matching ACK came before the deadline.
    */
    method Transmit(trame: Trame)
      modifies this
      ensures var w := Poll(trame.num, old(inbox), NextReads(old(deadlines)), 0);
        out == old(out) + Repeat(SentOf(trame), Copies(w)) && inbox == w.rest
      ensures frameNum == old(frameNum) && deadlines == LaterReads(old(deadlines))
      ensures closed == old(closed)
    {
      ghost var w := Poll(trame.num, inbox, NextReads(deadlines), 0);
      ghost var frame := SentOf(trame);
      Emit(trame);
      var acked := AwaitReply(trame);
      if !acked {
        Emit(trame);
      }
      CopiesInOrder(frame, w, old(out), out);
    }

    /** `System.arraycopy` of `size` bytes from `position` into a fresh array. */
    method CopySlice(data: array<bv8>, position: nat, size: nat) returns (chunk: array<bv8>)
      requires position + size <= data.Length
      ensures fresh(chunk) && chunk[..] == data[position..position + size]
    {
      chunk := new bv8[size];
      forall k | 0 <= k < size {
        chunk[k] := data[position + k];
      }
    }

    /**
      One iteration of the outer loop of `sendFrame`: the slice at `position` is
      copied out, numbered, and transmitted.
    */
    method SendSlice(data: array<bv8>, position: nat) returns (size: nat)
      requires position < data.Length
      modifies this
      ensures size == Min(FrameSizeMax, data.Length - position)
      ensures State() == Round(old(State()), data[position..position + size])
      ensures closed == old(closed)
    {
      ghost var s0 := State();
      ghost var w := NextWait(s0);
      if frameNum == 8 {
        frameNum := 0;
      }
      ghost var n := frameNum;
      size := Min(FrameSizeMax, data.Length - position);
      var chunk := CopySlice(data, position, size);
      ghost var slice := chunk[..];
      var trame := new Trame(I, frameNum, chunk);
      frameNum := frameNum + 1;
      Transmit(trame);
      assert Link(frameNum, out, inbox, deadlines) == Round(s0, slice);
    }

    /** `sendFrame`: every slice of `data` in turn. */
    method SendFrame(data: array<bv8>)
      modifies this
      ensures State() == SendLine(old(State()), data[..])
      ensures closed == old(closed)
    {
      ghost var s0 := State();
      ghost var input := data[..];
      var position := 0;
      assert input[position..] == input;
      while position < data.Length
        invariant position <= data.Length
        invariant data[..] == input
        invariant SendLine(s0, input) == SendChunks(State(), Chunks(input[position..]))
        invariant closed == old(closed)
      {
        ChunksAt(input, position);
        var size := SendSlice(data, position);
        position := position + size;
      }
      assert input[position..] == [];
    }

    /**
      `createFrame`: every line of the input, as bytes, goes through `sendFrame`;
      then the end frame, numbered with the counter before it moves on, goes out
      and the connection closes.
    */
    method CreateFrame(lines: seq<seq<bv8>>)
      modifies this
      ensures State() == Session(old(State()), lines)
      ensures closed
    {
      ghost var s0 := State();
      for i := 0 to |lines|
        invariant SendLines(s0, lines) == SendLines(State(), lines[i..])
      {
        var data := new bv8[|lines[i]|](k requires 0 <= k < |lines[i]| => lines[i][k]);
        assert data[..] == lines[i];
        SendFrame(data);
        assert lines[i..][1..] == lines[i + 1..];
      }
      var empty := new bv8[0];
      var endFrame := new Trame(F, frameNum, empty);
      frameNum := frameNum + 1;
      Emit(endFrame);
      closed := true;
    }
  }
}
