// Sequence numbers of a clock session over every history of calls.
module SessionLaws {
  import opened Prelude
  import opened Bytes
  import opened Protocol
  import opened ClockEstimator
  import opened ClockSessions

  datatype Call<+E> =
    | BeginAt(hostSend: u64, sink: Result<(), E>)
    | RespondAt(bytes: seq<byte>, hostReceive: u64)
    | ExpireBy(now: u64)

  /** A session and the sequence numbers of the frames it has handed to its sink. */
  datatype Issuing = Issuing(session: SessionState, issued: seq<u32>)

  function Next<E>(w: Issuing, c: Call<E>): Issuing {
    match c
    case BeginAt(hostSend, sink) =>
      Issuing(Begin(w.session, hostSend, sink).0,
              if Refusal<E>(w.session).None? then w.issued + [w.session.nextSequence] else w.issued)
    case RespondAt(bytes, hostReceive) => w.(session := Accept<E>(w.session, bytes, hostReceive).0)
    case ExpireBy(now) => w.(session := ExpireAt(w.session, now).0)
  }

  function After<E>(maxSlewPpb: int, timeout: u64, calls: seq<Call<E>>): Issuing {
    if calls == [] then Issuing(NewSession(maxSlewPpb, timeout), [])
    else Next(After(maxSlewPpb, timeout, calls[..|calls| - 1]), calls[|calls| - 1])
  }

  /** The numbers count up from zero, each once, and a pending exchange has the last. */
  predicate InOrder(w: Issuing) {
    && (forall k :: 0 <= k < |w.issued| ==> w.issued[k] == k)
    && |w.issued| <= 0x1_0000_0000
    && (w.session.pending.Some? ==> w.issued != [] && w.session.pending.value.sequence == |w.issued| - 1)
    && (w.session.exhausted <==> |w.issued| == 0x1_0000_0000)
    && (|w.issued| < 0x1_0000_0000 ==> w.session.nextSequence == |w.issued|)
  }

  lemma NextInOrder<E>(w: Issuing, c: Call<E>)
    requires InOrder(w)
    ensures InOrder(Next(w, c))
  {
    match c
    case BeginAt(hostSend, sink) =>
    case RespondAt(bytes, hostReceive) => AcceptKeepsNumbers<E>(w.session, bytes, hostReceive);
    case ExpireBy(now) =>
  }

  lemma AcceptKeepsNumbers<E>(s: SessionState, bytes: seq<byte>, hostReceive: u64)
    ensures var next := Accept<E>(s, bytes, hostReceive).0;
      && next.nextSequence == s.nextSequence && next.exhausted == s.exhausted
      && (next.pending == s.pending || next.pending.None?)
  {
    hide DecodeClockResponse, PushSample;
  }

  lemma {:induction false} HistoryInOrder<E>(maxSlewPpb: int, timeout: u64, calls: seq<Call<E>>)
    ensures InOrder(After(maxSlewPpb, timeout, calls))
    decreases |calls|
  {
    hide InOrder, Next;
    if calls == [] {
      StartsInOrder(maxSlewPpb, timeout);
    } else {
      HistoryInOrder(maxSlewPpb, timeout, calls[..|calls| - 1]);
      NextInOrder(After(maxSlewPpb, timeout, calls[..|calls| - 1]), calls[|calls| - 1]);
    }
  }

  lemma StartsInOrder(maxSlewPpb: int, timeout: u64)
    ensures InOrder(Issuing(NewSession(maxSlewPpb, timeout), []))
  {
  }

  /** After every history of calls: the exchanges were numbered from zero, none twice;
      and another one starts if and only if none is pending and fewer than two to the
      thirty-second have been, with the next number even if its frame is not taken. */
  lemma BeginsExactly<E>(maxSlewPpb: int, timeout: u64, calls: seq<Call<E>>, hostSend: u64, sink: Result<(), E>)
    ensures var w := After(maxSlewPpb, timeout, calls);
      var n := |w.issued|;
      var (next, r) := Begin(w.session, hostSend, sink);
      && (forall k :: 0 <= k < n ==> w.issued[k] == k)
      && if w.session.pending.Some? then
           next == w.session && r.Err? && r.error.Busy? && r.error.sequence == n - 1
         else if n == 0x1_0000_0000 then
           next == w.session && r == Err(SequenceExhausted)
         else
           && n < 0x1_0000_0000
           && Next(w, BeginAt(hostSend, sink)).issued == w.issued + [n]
           && match sink
              case Err(e) => next.pending.None? && r == Err(Transport(e))
              case Ok(_) => next.pending == Some(PendingExchange(n, hostSend)) && r == Ok(n)
  {
    hide After;
    HistoryInOrder(maxSlewPpb, timeout, calls);
  }
}
