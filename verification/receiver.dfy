/**
  The receiving side (src/Receiver.java). `start` reads frames one at a time and
  keeps a single counter, the number of the next frame it expects, modulo 8.
  Each reception leads to one of four actions: nothing (a lost frame), stop (an
  end frame), an ACK carrying the frame's number, or a REJ carrying it.

  The socket becomes a finite sequence of receptions, `null` for "nothing
  received". `Step` and `Run` are the specification; `Start` is the loop.
*/
module Receiving {
  import opened Checksum
  import opened Frames

  /** A reply frame: its type and number. Its data is always empty. */
  datatype Reply = Reply(kind: TrameType, num: bv8)

  /** What the receiver does with one reception. */
  datatype Action = Ignore | Stop | Send(reply: Reply)

  /**
    What the loop in `start` looks at in a received frame: its type, its number,
    and whether its stored checksum matches its contents.
  */
  datatype Reception = Reception(kind: TrameType, num: bv8, crcOk: bool)

  function Observe(v: FrameValue): Reception {
    Reception(v.kind, v.num, v.CrcHolds())
  }

  /** `checkTrame` on a reception: the checksum matches and the number is the expected one. */
  predicate Check(r: Reception, expected: bv8) {
    r.crcOk && r.num == expected
  }

  /** The counter after a step, and what the step does. */
  datatype Stepped = Stepped(expected: bv8, action: Action)

  /** One iteration of the loop in `start`. */
  function Step(expected: bv8, r: Option<Reception>): Stepped
  {
    match r
    case None => Stepped(expected, Ignore)
    case Some(v) =>
      if v.kind == F then Stepped(expected, Stop)
      else if Check(v, expected) then Stepped(NextNum(expected), Send(Reply(A, v.num)))
      else Stepped(expected, Send(Reply(R, v.num)))
  }

  /** The replies sent, the counter at the end, and whether the connection was closed. */
  datatype Outcome = Outcome(replies: seq<Reply>, expected: bv8, closed: bool)

  /** The frames an action sends: one reply, or none. */
  function Emit(a: Action): seq<Reply> {
    if a.Send? then [a.reply] else []
  }

  /** `o` preceded by the replies `fs` sent before it. */
  function Prepend(fs: seq<Reply>, o: Outcome): Outcome {
    o.(replies := fs + o.replies)
  }

  /** The whole loop over a finite sequence of receptions, from counter `expected`. */
  function Run(expected: bv8, rs: seq<Option<Reception>>): Outcome
    decreases |rs|
  {
    if rs == [] then Outcome([], expected, false)
    else
      var s := Step(expected, rs[0]);
      if s.action == Stop then Outcome([], expected, true)
      else Prepend(Emit(s.action), Run(s.expected, rs[1..]))
  }

  lemma PrependPrepend(fs: seq<Reply>, gs: seq<Reply>, o: Outcome)
    ensures Prepend(fs, Prepend(gs, o)) == Prepend(fs + gs, o)
  {
  }

  /** An end frame at the head of the input stops the run there. */
  lemma RunStops(expected: bv8, rs: seq<Option<Reception>>)
    requires rs != [] && rs[0].Some? && rs[0].value.kind == F
    ensures Run(expected, rs) == Outcome([], expected, true)
  {
  }

  /** Any other reception at position `k` sends its reply and carries on from `k + 1`. */
  lemma RunContinues(before: bv8, rs: seq<Option<Reception>>, k: nat)
    requires k < |rs|
    ensures var s := Step(before, rs[k]);
      s.action != Stop ==> Run(before, rs[k..]) == Prepend(Emit(s.action), Run(s.expected, rs[k + 1..]))
  {
    assert rs[k..][1..] == rs[k + 1..];
  }

  // ---------------------------------------------------------------------------
  // Properties of the specification
  // ---------------------------------------------------------------------------

  /** What one step promises, case by case. */
  lemma StepProperties(expected: bv8, r: Option<Reception>)
    // nothing received: no reply and no change
    ensures r.None? ==> Step(expected, r) == Stepped(expected, Ignore)
    // only an end frame stops, whatever its checksum and number, and it changes nothing
    ensures Step(expected, r).action == Stop <==> r.Some? && r.value.kind == F
    ensures Step(expected, r).action == Stop ==> Step(expected, r).expected == expected
    // every other frame gets exactly one reply, carrying the received number
    ensures r.Some? && r.value.kind != F ==> Step(expected, r).action.Send?
    ensures Step(expected, r).action.Send? ==> r.Some? && Step(expected, r).action.reply.num == r.value.num
    // the reply is an ACK exactly when the frame passes the check, and a REJ otherwise
    ensures Step(expected, r).action.Send? ==>
      (Step(expected, r).action.reply.kind == A <==> Check(r.value, expected)) &&
      (Step(expected, r).action.reply.kind == R <==> !Check(r.value, expected))
    // the counter moves, to its successor mod 8, only on an ACK
    ensures Step(expected, r).expected != expected ==> Step(expected, r).action == Send(Reply(A, r.value.num))
    ensures Step(expected, r).action.Send? && Step(expected, r).action.reply.kind == A ==>
      Step(expected, r).expected == NextNum(expected)
  {
  }

  /** A frame whose checksum matches, as every frame the constructor builds: only its number decides. */
  lemma BuiltFramePassesCrc(v: FrameValue, expected: bv8)
    requires v == Build(v.kind, v.num, v.data)
    ensures Check(Observe(v), expected) <==> v.num == expected
  {
  }

  /** From any counter value in 0..7, the counter stays in 0..7. */
  lemma {:induction false} RunCounterInRange(expected: bv8, rs: seq<Option<Reception>>)
    requires expected < 8
    ensures Run(expected, rs).expected < 8
    decreases |rs|
  {
    if rs != [] {
      var s := Step(expected, rs[0]);
      NextNumAsInt(expected);
      if s.action != Stop {
        RunCounterInRange(s.expected, rs[1..]);
      }
    }
  }

  /** The frames the receiver answers: every frame received before the first end frame. */
  function Answered(rs: seq<Option<Reception>>): seq<Reception>
    decreases |rs|
  {
    if rs == [] then []
    else if rs[0].None? then Answered(rs[1..])
    else if rs[0].value.kind == F then []
    else [rs[0].value] + Answered(rs[1..])
  }

  /**
    One reply per answered frame, in order, each an ACK or a REJ carrying the
    number of the frame it answers.
  */
  lemma {:induction false} RunAnswersEachFrame(expected: bv8, rs: seq<Option<Reception>>)
    ensures |Run(expected, rs).replies| == |Answered(rs)|
    ensures forall i :: 0 <= i < |Answered(rs)| ==>
      Run(expected, rs).replies[i].num == Answered(rs)[i].num &&
      Run(expected, rs).replies[i].kind in {A, R}
    decreases |rs|
  {
    if rs != [] {
      var s := Step(expected, rs[0]);
      if s.action != Stop {
        RunAnswersEachFrame(s.expected, rs[1..]);
      }
    }
  }

  /** The connection is closed exactly when an end frame arrives. */
  lemma {:induction false} RunClosesOnEndFrame(expected: bv8, rs: seq<Option<Reception>>)
    ensures Run(expected, rs).closed <==> exists i :: 0 <= i < |rs| && rs[i].Some? && rs[i].value.kind == F
    decreases |rs|
  {
    if rs != [] {
      var s := Step(expected, rs[0]);
      if s.action != Stop {
        RunClosesOnEndFrame(s.expected, rs[1..]);
        if Run(expected, rs).closed {
          var i :| 0 <= i < |rs[1..]| && rs[1..][i].Some? && rs[1..][i].value.kind == F;
          assert rs[i + 1] == rs[1..][i];
        } else {
          forall i | 0 < i < |rs|
            ensures !(rs[i].Some? && rs[i].value.kind == F)
          {
            assert rs[i] == rs[1..][i - 1];
          }
        }
      }
    }
  }

  /** The receptions that hold a frame, with the losses removed. */
  function Present(rs: seq<Option<Reception>>): (ps: seq<Option<Reception>>)
    ensures forall i :: 0 <= i < |ps| ==> ps[i].Some?
    decreases |rs|
  {
    if rs == [] then []
    else if rs[0].None? then Present(rs[1..])
    else [rs[0]] + Present(rs[1..])
  }

  /** A lost frame (`PerteTrame`'s `null`) changes nothing: the run is that of the frames received. */
  lemma {:induction false} RunIgnoresLosses(expected: bv8, rs: seq<Option<Reception>>)
    ensures Run(expected, rs) == Run(expected, Present(rs))
    decreases |rs|
  {
    if rs != [] {
      RunIgnoresLosses(Step(expected, rs[0]).expected, rs[1..]);
      if rs[0].Some? {
        assert ([rs[0]] + Present(rs[1..]))[1..] == Present(rs[1..]);
      }
    }
  }

  /**
    A clean channel: frames with matching checksums, none of them an end frame,
    numbered from `expected` on, are all ACKed with their own numbers, and the
    counter ends `|rs|` steps further.
  */
  lemma {:induction false} RunInOrder(expected: bv8, rs: seq<Option<Reception>>)
    requires forall i :: 0 <= i < |rs| ==> rs[i].Some? && rs[i].value.kind != F && rs[i].value.crcOk
    requires forall i :: 0 <= i < |rs| ==> rs[i].value.num == After(expected, i)
    ensures Run(expected, rs).replies == seq(|rs|, i requires 0 <= i < |rs| => Reply(A, After(expected, i)))
    ensures Run(expected, rs).expected == After(expected, |rs|)
    ensures !Run(expected, rs).closed
    decreases |rs|
  {
    if rs != [] {
      var next := NextNum(expected);
      forall i | 0 <= i < |rs| - 1
        ensures rs[1..][i].value.num == After(next, i)
      {
        AfterShift(expected, i);
      }
      RunInOrder(next, rs[1..]);
      AfterShift(expected, |rs| - 1);
      var tail := seq(|rs| - 1, i requires 0 <= i < |rs| - 1 => Reply(A, After(next, i)));
      forall i | 0 <= i < |rs| - 1
        ensures tail[i] == Reply(A, After(expected, i + 1))
      {
        AfterShift(expected, i);
      }
    }
  }

  /** What the receiver sees of one reception. */
  function View(t: Trame?): Option<Reception>
    reads if t == null then {} else {t.donne}
  {
    if t == null then None else Some(Observe(t.Value()))
  }

  function Views(ts: seq<Trame?>): (vs: seq<Option<Reception>>)
    reads set t | t in ts && t != null :: t.donne
    ensures |vs| == |ts|
    ensures forall i :: 0 <= i < |ts| ==> vs[i] == View(ts[i])
  {
    seq(|ts|, i requires 0 <= i < |ts| reads set t | t in ts && t != null :: t.donne => View(ts[i]))
  }

  /** `checkTrame`: recomputes the checksum of the frame's current contents. */
  method CheckTrame(t: Trame, expected: bv8) returns (ok: bool)
    ensures ok <==> t.CrcHolds() && t.num == expected
  {
    var crc := CalculateCrc(t.kind, t.num, t.donne);
    ok := t.crc == crc && t.num == expected;
  }

  /** The action a call of `Handle` took, read off its results. */
  function Taken(stop: bool, reply: Trame?): Action {
    if stop then Stop else if reply == null then Ignore else Send(Reply(reply.kind, reply.num))
  }

  /** A reply frame, built over a fresh empty array. */
  method MakeReply(kind: TrameType, num: bv8) returns (r: Trame)
    ensures fresh(r) && r.donne.Length == 0
    ensures r.Value() == Build(kind, num, []) && r.CrcHolds()
  {
    var empty := new bv8[0];
    r := new Trame(kind, num, empty);
  }

  /**
    One iteration of the loop in `start` on reception `t`: whether to stop, the
    new counter, and the reply frame sent, if any.
  */
  method Handle(t: Trame?, expected: bv8) returns (stop: bool, next: bv8, reply: Trame?)
    ensures Step(expected, View(t)) == Stepped(next, Taken(stop, reply))
    ensures reply != null ==> fresh(reply) && reply.donne.Length == 0 && reply.CrcHolds()
  {
    stop, next, reply := false, expected, null;
    if t == null {
      return;
    }
    ghost var r := Observe(t.Value());
    assert View(t) == Some(r);
    if t.GetType() == Code(F) {
      CodeInjective(t.kind, F);
      stop := true;
      return;
    }
    CodeInjective(t.kind, F);
    var ok := CheckTrame(t, expected);
    assert ok == Check(r, expected);
    if ok {
      reply := MakeReply(A, t.num);
      next := (expected + 1) % 8;
    } else {
      reply := MakeReply(R, t.num);
    }
  }

  /**
    One iteration of the loop in `start`, as the loop records it: whether it
    stops, the new counter, and the replies sent.
  */
  method Answer(t: Trame?, expected: bv8) returns (stop: bool, next: bv8, replies: seq<Reply>)
    ensures var s := Step(expected, View(t));
      stop == (s.action == Stop) && next == s.expected && replies == Emit(s.action)
  {
    var reply;
    stop, next, reply := Handle(t, expected);
    replies := if !stop && reply != null then [Reply(reply.kind, reply.num)] else [];
  }

  /**
    `start`: the counter begins at 0; frames are read until an end frame, after
    which the connection is closed. An input that runs out before an end frame
    leaves the connection open.
  */
  method Start(inbox: seq<Trame?>) returns (sent: seq<Reply>, expected: bv8, closed: bool)
    ensures Run(0, Views(inbox)) == Outcome(sent, expected, closed)
  {
    ghost var views := Views(inbox);
    sent, expected, closed := [], 0, false;
    for k := 0 to |inbox|
      invariant Run(0, views) == Prepend(sent, Run(expected, views[k..]))
    {
      ghost var s := Step(expected, views[k]);
      RunContinues(expected, views, k);
      assert View(inbox[k]) == views[k];
      var stop, next, replies := Answer(inbox[k], expected);
      if stop {
        RunStops(expected, views[k..]);
        closed := true;
        break;
      }
      PrependPrepend(sent, replies, Run(s.expected, views[k + 1..]));
      sent := sent + replies;
      expected := next;
    }
    assert Views(inbox) == views;
  }
}
