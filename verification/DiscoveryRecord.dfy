/** The two operations of the rendezvous in the source's own form, on the shared record they
    update. Where an operation does not hold the lock other threads may act: what they leave
    is a parameter. */
module DiscoveryRecord {
  import opened CStrings
  import opened Discovery

  const NOT_RUNNING := 255
  const NOT_SENT := 255

  /** The specific socket decides alone if it is open; otherwise one of the two families is enough. */
  function SendOutcome(spec: Option<int>, six: Option<int>, four: Option<int>): (sent: int)
    ensures sent == 0 <==> if spec.Some? then spec.value == 0 else six == Some(0) || four == Some(0)
  {
    if spec.Some? then spec.value
    else if six == Some(0) || four.None? then (if six.None? then NOT_SENT else six.value)
    else four.value
  }

  /** One thread of the protocol going on alone, for at most `n` steps. */
  function Alone(w: World, choice: int, n: nat): World
    requires |w.pcs| == 1
    decreases n
  {
    if n == 0 || !CanStep(w, Go(0, choice)) then w else Alone(Advance(w, 0, choice), choice, n - 1)
  }

  class Record {
    var result: int
    var host: Host

    /** The record with one thread at `pc`. */
    ghost function With(pc: Pc, lock: int): World
      reads this
    {
      World(result, host, lock, [pc])
    }

    /** A discovery: `spec`, `six` and `four` are the outcomes of sending the solicitation on the
        sockets that are open; while it waits other threads leave `laterResult` and `laterHost`. */
    method Discover(running: bool, spec: Option<int>, six: Option<int>, four: Option<int>,
                    laterResult: int, laterHost: Host)
      returns (res: int, out: Option<Host>)
      modifies this
      ensures !running ==> res == NOT_RUNNING && out == None && result == old(result) && host == old(host)
      ensures var sent := SendOutcome(spec, six, four); running && sent != 0 ==>
        With(NotSent(res), NOBODY) == Alone(old(With(WantsCall, NOBODY)), sent, 4) && out == None
      ensures running && SendOutcome(spec, six, four) == 0 ==>
        && Alone(old(With(WantsCall, NOBODY)), 0, 3) == World(TIMED_OUT, old(host), NOBODY, [Waiting])
        && out.Some?
        && With(Answered(res, out.value), NOBODY) == Alone(World(laterResult, laterHost, NOBODY, [Waiting]), 0, 4)
      ensures running && SendOutcome(spec, six, four) == 0 ==>
        res == result == laterResult && host == laterHost && out == Some(laterHost)
      ensures running && SendOutcome(spec, six, four) != 0 ==>
        res == SendOutcome(spec, six, four) && result == 254 && host == old(host)
      ensures !running ==> res == 255
    {
      out := None;
      if !running {
        return NOT_RUNNING, None;
      }
      CallAlone(With(WantsCall, NOBODY), SendOutcome(spec, six, four));
      result := TIMED_OUT;
      if spec.Some? {
        res := spec.value;
      } else {
        res := if six.None? then NOT_SENT else six.value;
        if four.Some? {
          if res != 0 {
            res := four.value;
          }
        }
      }
      if res == 0 {
        result, host := laterResult, laterHost;
        WaitAlone(With(Waiting, NOBODY));
        out := Some(host);
        res := result;
      }
    }

    /** An advertisement: unless it is dropped, a look at the result without the lock; other
        threads may then leave `laterResult` and `laterHost` before the lock is taken. */
    method Advertised(code: int, from: Host, drop: bool, laterResult: int, laterHost: Host)
      requires 0 <= code < 8
      modifies this
      ensures var first := Alone(old(With(Received(code, from), NOBODY)), if drop then 1 else 0, 1);
        && (first.pcs[0] == Idle || first.pcs[0] == WantsStore(code, from))
        && With(Idle, NOBODY) ==
             (if first.pcs[0] == Idle then first
              else Alone(World(laterResult, laterHost, NOBODY, [WantsStore(code, from)]), 0, 5))
      ensures drop || old(result) <= 8 ==> result == old(result) && host == old(host)
      ensures !drop && old(result) > 8 ==>
        if laterResult > 8 then result == code && host == from else result == laterResult && host == laterHost
    {
      LookAlone(With(Received(code, from), NOBODY), code, from, if drop then 1 else 0);
      if result > LAST_ANSWER {
        if !drop {
          result, host := laterResult, laterHost;
          ghost var w := With(WantsStore(code, from), NOBODY);
          if result > LAST_ANSWER {
            StoreAlone(w, code, from);
            host := from;
            result := code;
          } else {
            SkipAlone(w, code, from);
          }
        }
      }
    }
  }

  lemma {:induction false} AloneCompose(w: World, choice: int, m: nat, n: nat)
    requires |w.pcs| == 1
    ensures |Alone(w, choice, m).pcs| == 1 && Alone(w, choice, m + n) == Alone(Alone(w, choice, m), choice, n)
    decreases m
  {
    hide Advance;
    if m > 0 && CanStep(w, Go(0, choice)) {
      OneThread(w, choice);
      AloneCompose(Advance(w, 0, choice), choice, m - 1, n);
    }
  }

  lemma OneThread(w: World, choice: int)
    requires |w.pcs| == 1 && CanStep(w, Go(0, choice))
    ensures |Advance(w, 0, choice).pcs| == 1
  {
  }

  /** The thread can go on, to `v`. */
  predicate Goes(w: World, choice: int, v: World) {
    |w.pcs| == |v.pcs| == 1 && CanStep(w, Go(0, choice)) && Advance(w, 0, choice) == v
  }

  lemma AloneStep(w: World, choice: int, v: World)
    requires Goes(w, choice, v)
    ensures Alone(w, choice, 1) == v
  {
    hide Advance, CanStep;
    assert Alone(w, choice, 1) == Alone(v, choice, 0);
  }

  lemma AloneTwo(w: World, choice: int, v: World, x: World)
    requires Goes(w, choice, v) && Goes(v, choice, x)
    ensures Alone(w, choice, 2) == x
  {
    AloneStep(w, choice, v);
    AloneStep(v, choice, x);
    hide Alone, Goes;
    AloneCompose(w, choice, 1, 1);
  }

  /** The locked half of a call: reset, send, and wait or give up. */
  lemma CallAlone(w: World, sent: int)
    requires w.pcs == [WantsCall] && w.lock == NOBODY
    ensures sent == 0 ==> Alone(w, sent, 3) == World(TIMED_OUT, w.host, NOBODY, [Waiting])
    ensures sent != 0 ==> Alone(w, sent, 4) == World(TIMED_OUT, w.host, NOBODY, [NotSent(sent)])
  {
    hide Alone, Goes;
    ResetAlone(w, sent);
    var v := World(TIMED_OUT, w.host, 0, [Sending]);
    if sent == 0 {
      SentAlone(v);
      AloneCompose(w, sent, 2, 1);
    } else {
      SendFails(v, sent);
      AloneCompose(w, sent, 2, 2);
    }
  }

  lemma ResetAlone(w: World, sent: int)
    requires w.pcs == [WantsCall] && w.lock == NOBODY
    ensures Alone(w, sent, 2) == World(TIMED_OUT, w.host, 0, [Sending])
  {
    hide Alone;
    AloneTwo(w, sent, w.(lock := 0, pcs := [Resetting]), World(TIMED_OUT, w.host, 0, [Sending]));
  }

  lemma SentAlone(w: World)
    requires w.pcs == [Sending] && w.lock == 0
    ensures Alone(w, 0, 1) == w.(lock := NOBODY, pcs := [Waiting])
  {
    hide Alone;
    AloneStep(w, 0, w.(lock := NOBODY, pcs := [Waiting]));
  }

  lemma SendFails(w: World, sent: int)
    requires w.pcs == [Sending] && w.lock == 0 && sent != 0
    ensures Alone(w, sent, 2) == w.(lock := NOBODY, pcs := [NotSent(sent)])
  {
    hide Alone;
    AloneTwo(w, sent, w.(pcs := [SendFailed(sent)]), w.(lock := NOBODY, pcs := [NotSent(sent)]));
  }

  /** A caller that wakes up fetches and returns what the record holds. */
  lemma WaitAlone(w: World)
    requires w.pcs == [Waiting] && w.lock == NOBODY
    ensures Alone(w, 0, 4) == w.(pcs := [Answered(w.result, w.host)])
  {
    hide Alone;
    WakeAlone(w);
    AloneCompose(w, 0, 2, 2);
    ReturnAlone(Alone(w, 0, 2));
  }

  lemma WakeAlone(w: World)
    requires w.pcs == [Waiting] && w.lock == NOBODY
    ensures Alone(w, 0, 2) == w.(lock := 0, pcs := [FetchingResult(w.host)])
  {
    hide Alone;
    AloneTwo(w, 0, w.(lock := 0, pcs := [FetchingHost]), w.(lock := 0, pcs := [FetchingResult(w.host)]));
  }

  lemma ReturnAlone(w: World)
    requires w.pcs == [FetchingResult(w.host)] && w.lock == 0
    ensures Alone(w, 0, 2) == w.(lock := NOBODY, pcs := [Answered(w.result, w.host)])
  {
    hide Alone;
    AloneTwo(w, 0, w.(pcs := [Fetched(w.result, w.host)]), w.(lock := NOBODY, pcs := [Answered(w.result, w.host)]));
  }

  /** The look without the lock. */
  lemma LookAlone(w: World, code: int, host: Host, choice: int)
    requires w.pcs == [Received(code, host)]
    ensures Alone(w, choice, 1) ==
      w.(pcs := [if w.result > LAST_ANSWER && choice == 0 then WantsStore(code, host) else Idle])
  {
    hide Alone;
    AloneStep(w, choice, w.(pcs := [if w.result > LAST_ANSWER && choice == 0 then WantsStore(code, host) else Idle]));
  }

  /** The locked half of an advertisement, when the result is still open. */
  lemma StoreAlone(w: World, code: int, host: Host)
    requires w.pcs == [WantsStore(code, host)] && w.lock == NOBODY && w.result > LAST_ANSWER
    ensures Alone(w, 0, 5) == World(code, host, NOBODY, [Idle])
  {
    hide Alone;
    LockAlone(w, code, host);
    AloneCompose(w, 0, 2, 3);
    StoreBoth(Alone(w, 0, 2), code, host);
    AloneCompose(Alone(w, 0, 2), 0, 2, 1);
    UnlockAlone(Alone(Alone(w, 0, 2), 0, 2));
  }

  /** The locked half of an advertisement, when another one came first. */
  lemma SkipAlone(w: World, code: int, host: Host)
    requires w.pcs == [WantsStore(code, host)] && w.lock == NOBODY && w.result <= LAST_ANSWER
    ensures Alone(w, 0, 3) == w.(pcs := [Idle])
    ensures Alone(w, 0, 5) == w.(pcs := [Idle])
  {
    hide Alone;
    LockAlone(w, code, host);
    AloneCompose(w, 0, 2, 1);
    UnlockAlone(Alone(w, 0, 2));
    AloneCompose(w, 0, 3, 2);
    RestsAlone(w.(pcs := [Idle]), 2);
  }

  lemma LockAlone(w: World, code: int, host: Host)
    requires w.pcs == [WantsStore(code, host)] && w.lock == NOBODY
    ensures Alone(w, 0, 2) == w.(lock := 0, pcs := [if w.result > LAST_ANSWER then StoringHost(code, host) else Stored])
  {
    hide Alone;
    AloneTwo(w, 0, w.(lock := 0, pcs := [Rechecking(code, host)]),
             w.(lock := 0, pcs := [if w.result > LAST_ANSWER then StoringHost(code, host) else Stored]));
  }

  lemma StoreBoth(w: World, code: int, host: Host)
    requires w.pcs == [StoringHost(code, host)] && w.lock == 0
    ensures Alone(w, 0, 2) == World(code, host, 0, [Stored])
  {
    hide Alone;
    AloneTwo(w, 0, w.(host := host, pcs := [StoringResult(code, host)]), World(code, host, 0, [Stored]));
  }

  lemma UnlockAlone(w: World)
    requires w.pcs == [Stored] && w.lock == 0
    ensures Alone(w, 0, 1) == w.(lock := NOBODY, pcs := [Idle])
  {
    hide Alone;
    AloneStep(w, 0, w.(lock := NOBODY, pcs := [Idle]));
  }

  lemma RestsAlone(w: World, n: nat)
    requires w.pcs == [Idle]
    ensures Alone(w, 0, n) == w
  {
  }
}
