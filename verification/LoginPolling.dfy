/**
  Waiting for a provider login: every status request keeps its distance from the last one and
  starts before the session's deadline, so a login ends after boundedly many requests.
 */
module LoginPolling {
  import opened Wrappers

  const SECOND: int := 1_000_000_000
  const BUDGET: int := 300 * SECOND
  const MINIMUM: int := SECOND

  /** What the provider's status endpoint answers, after `duration`. */
  datatype Answer = Pending | Granted | Rejected | Broken

  datatype Poll = Status(answer: Answer) | TimedOut | Canceled

  /** The delays one call meets: at each look at the clock, in the sleep, and in the request. */
  datatype Delays = Delays(first: nat, oversleep: nat, second: nat, request: nat)

  datatype Login = LoggedIn | Failed | Expired | Aborted

  /** Requests that start in time, end by `last`, and keep the interval from the start and from each other. */
  ghost predicate Spaced(begun: int, deadline: int, interval: int, last: int, polls: seq<(int, int)>) {
    && (forall i :: 0 <= i < |polls| ==> polls[i].0 <= polls[i].1 <= last && polls[i].0 < deadline)
    && (forall i :: 0 < i < |polls| ==> polls[i - 1].1 + interval <= polls[i].0)
    && (|polls| > 0 ==> begun + interval <= polls[0].0)
  }

  lemma SpacedSnoc(begun: int, deadline: int, interval: int, last: int, polls: seq<(int, int)>, start: int, end: int)
    requires Spaced(begun, deadline, interval, last, polls) && begun <= last
    requires last + interval <= start <= end && start < deadline && interval >= 0
    ensures Spaced(begun, deadline, interval, end, polls + [(start, end)])
  {
  }

  lemma SpacedLater(begun: int, deadline: int, interval: int, last: int, polls: seq<(int, int)>, later: int)
    requires Spaced(begun, deadline, interval, last, polls) && last <= later
    ensures Spaced(begun, deadline, interval, later, polls)
  {
  }

  class Session {
    const begun: int
    const deadline: int
    const interval: int
    var time: int
    var lastPoll: int
    /** The start and the end of every request made through Poll. */
    ghost var polls: seq<(int, int)>

    /** A session starts its budget before the challenge is fetched. */
    constructor (startedAt: int, now: int, interval: int, expires: Option<int>)
      requires startedAt <= now
      ensures Valid() && polls == [] && begun == startedAt
      ensures deadline <= startedAt + BUDGET && (expires.Some? ==> deadline <= expires.value)
      ensures this.interval >= MINIMUM && this.interval >= interval
      ensures this.interval == if interval < 1_000_000_000 then 1_000_000_000 else interval
      ensures deadline ==
        if expires.Some? && expires.value < startedAt + 300_000_000_000 then expires.value
        else startedAt + 300_000_000_000
      ensures time == now && lastPoll == now
    {
      begun := startedAt;
      var overall := startedAt + BUDGET;
      deadline := if expires.Some? && expires.value < overall then expires.value else overall;
      this.interval := if interval < MINIMUM then MINIMUM else interval;
      time, lastPoll := now, now;
      polls := [];
    }

    /** Requests are spaced, before the deadline, and never end after the last one on record. */
    ghost predicate Valid()
      reads this
    {
      && interval >= MINIMUM && deadline <= begun + BUDGET && begun <= lastPoll <= time
      && Spaced(begun, deadline, interval, lastPoll, polls)
    }

    method Now(delay: nat) returns (now: int)
      modifies this`time
      ensures time == now == old(time) + delay
    {
      time := time + delay;
      now := time;
    }

    /** Waits for the next permitted moment; None when the deadline or a cancellation came first. */
    method WaitForPoll(d: Delays, canceled: bool) returns (r: Option<Poll>)
      requires Valid()
      modifies this`time
      ensures Valid() && time >= old(time)
      ensures r.None? ==> lastPoll + interval <= time < deadline
      ensures r == Some(TimedOut) ==> time >= deadline
      ensures r.Some? ==> r.value == TimedOut || (canceled && r.value == Canceled)
      ensures var now, due := old(time) + d.first, lastPoll + interval;
        if now >= deadline then r == Some(TimedOut) && time == now
        else if due <= now then r.None? && time == now
        else if canceled then r == Some(Canceled) && time == now
        else
          && time == (if due <= deadline then due else deadline) + d.oversleep + d.second
          && r == if time < deadline then None else Some(TimedOut)
      ensures
        var start := StartOf(lastPoll, old(time), interval, d);
        var now, due := old(time) + d.first, lastPoll + interval;
        if start < deadline && (due <= now || !canceled) then r.None? && time == start
        else r == Some(if now < deadline && due > now && canceled then Canceled else TimedOut)
    {
      var now := Now(d.first);
      if now >= deadline {
        return Some(TimedOut);
      }
      var wait := interval - (now - lastPoll);
      if wait <= 0 {
        return None;
      }
      var remaining := deadline - now;
      if wait > remaining {
        wait := remaining;
      }
      if canceled {
        return Some(Canceled);
      }
      time := time + wait + d.oversleep;
      now := Now(d.second);
      if now >= deadline {
        return Some(TimedOut);
      }
      return None;
    }

    /** One status request; the clock is read again when it ends. */
    method PollNow(d: Delays, answer: Answer) returns (r: Poll)
      requires Valid()
      modifies this`time, this`lastPoll
      ensures Valid() && r == Status(answer)
      ensures lastPoll == time == old(time) + d.request
    {
      SpacedLater(begun, deadline, interval, lastPoll, polls, time + d.request);
      hide Spaced;
      time := time + d.request;
      lastPoll := time;
      r := Status(answer);
    }

    method PollOnce(d: Delays, canceled: bool, answer: Answer) returns (r: Poll)
      requires Valid()
      modifies this
      ensures Valid()
      ensures r.Status? ==> r.answer == answer && |polls| == |old(polls)| + 1 && polls[..|old(polls)|] == old(polls)
      ensures r.Status? ==> old(lastPoll) + interval <= polls[|old(polls)|].0 < deadline
      ensures r == TimedOut ==> time >= deadline
      ensures r == Canceled ==> canceled
      ensures !r.Status? ==> polls == old(polls) && lastPoll == old(lastPoll)
      ensures var now, due := old(time) + d.first, old(lastPoll) + interval;
        var start := StartOf(old(lastPoll), old(time), interval, d);
        if start < deadline && (due <= now || !canceled) then
          && r == Status(answer) && polls == old(polls) + [(start, start + d.request)]
          && time == lastPoll == start + d.request
        else r == if now < deadline && due > now && canceled then Canceled else TimedOut
    {
      hide StartOf, Spaced;
      var waited := WaitForPoll(d, canceled);
      if waited.Some? {
        return waited.value;
      }
      ghost var start := time;
      SpacedSnoc(begun, deadline, interval, lastPoll, polls, start, start + d.request);
      r := PollNow(d, answer);
      polls := polls + [(start, time)];
    }

    /** Submitting a pasted callback polls at once, and only pushes the next poll back. */
    method CompletePaste(d: Delays, answer: Answer) returns (r: Poll)
      requires Valid()
      modifies this
      ensures Valid() && polls == old(polls) && lastPoll >= old(lastPoll)
      ensures r == Status(answer) && lastPoll == time == old(time) + d.first + d.request
    {
      var now := Now(d.first);
      r := PollNow(d, answer);
    }
  }

  /** When the next request starts, if nothing ends the session before: at once when it is due, else when it wakes. */
  function StartOf(lastPoll: int, time: int, interval: int, d: Delays): int {
    var now, due := time + d.first, lastPoll + interval;
    if due <= now then now else due + d.oversleep + d.second
  }

  /** When the request of turn `k` starts, each one as soon as the session's interval and the delays let it. */
  function Starts(lastPoll: int, time: int, interval: int, delays: nat -> Delays, k: nat): int {
    if k == 0 then StartOf(lastPoll, time, interval, delays(0))
    else
      var end := Starts(lastPoll, time, interval, delays, k - 1) + delays(k - 1).request;
      StartOf(end, end, interval, delays(k))
  }

  /** Without delays the requests are an interval apart, from one interval after the session's start. */
  lemma {:induction false} StartsWithoutDelays(start: int, interval: int, delays: nat -> Delays, k: nat)
    requires interval >= MINIMUM && forall i :: delays(i) == Delays(0, 0, 0, 0)
    ensures Starts(start, start, interval, delays, k) == start + interval + k * interval
  {
    if k == 0 {
    } else {
      StartsWithoutDelays(start, interval, delays, k - 1);
    }
  }

  /** Spaced requests that all start before the deadline are fewer than the budget has seconds. */
  lemma {:induction false} SpacedPolls(begun: int, interval: int, polls: seq<(int, int)>)
    requires interval >= MINIMUM && polls != []
    requires forall i :: 0 <= i < |polls| ==> polls[i].0 <= polls[i].1
    requires forall i :: 0 < i < |polls| ==> polls[i - 1].1 + interval <= polls[i].0
    requires begun + interval <= polls[0].0
    ensures begun + |polls| * interval <= polls[|polls| - 1].0
    ensures begun + |polls| * SECOND <= polls[|polls| - 1].0
    decreases |polls|
  {
    if |polls| <= 1 {
    } else {
      SpacedPolls(begun, interval, polls[..|polls| - 1]);
      assert polls[|polls| - 2].1 + interval <= polls[|polls| - 1].0;
      assert |polls| * interval == (|polls| - 1) * interval + interval;
    }
  }

  lemma FewerThanThreeHundred(session: Session)
    requires session.Valid()
    ensures |session.polls| < 300
  {
    if session.polls != [] {
      SpacedPolls(session.begun, session.interval, session.polls);
    }
  }

  /** Turn `k` starts in time and is not canceled. */
  predicate InTime(deadline: int, lastPoll: int, time: int, interval: int, delays: nat -> Delays,
                   canceled: nat -> bool, k: nat)
  {
    Starts(lastPoll, time, interval, delays, k) < deadline && !canceled(k)
  }

  /** Turn `n` is the first whose answer is not pending, and no turn up to it is late or canceled. */
  ghost predicate Decides(deadline: int, lastPoll: int, time: int, interval: int, delays: nat -> Delays,
                          canceled: nat -> bool, answers: nat -> Answer, n: nat)
  {
    && (forall k :: 0 <= k <= n ==> InTime(deadline, lastPoll, time, interval, delays, canceled, k))
    && (forall k :: 0 <= k < n ==> answers(k) == Pending)
    && answers(n) != Pending
  }

  lemma DecidesLater(deadline: int, lastPoll: int, time: int, interval: int, delays: nat -> Delays,
                     canceled: nat -> bool, answers: nat -> Answer, n: nat, turn: nat)
    requires Decides(deadline, lastPoll, time, interval, delays, canceled, answers, n)
    requires forall i :: 0 <= i < turn ==> answers(i) == Pending
    ensures turn <= n && Starts(lastPoll, time, interval, delays, turn) < deadline && !canceled(turn)
    ensures turn < n ==> answers(turn) == Pending
  {
    assert turn <= n;
    assert InTime(deadline, lastPoll, time, interval, delays, canceled, turn);
  }

  /**
    The router's loop: it ends whatever the provider answers and however slow everything is. While
    requests are due in time and nothing is canceled, the first answer that is not pending decides.
   */
  method AwaitLogin(session: Session, delays: nat -> Delays, canceled: nat -> bool, answers: nat -> Answer)
    returns (r: Login, ghost requests: nat)
    requires session.Valid() && session.polls == []
    modifies session
    ensures session.Valid() && requests == |session.polls| < 300
    ensures r == LoggedIn ==> requests > 0 && answers(requests - 1) == Granted
    ensures forall i :: 0 <= i < requests - 1 ==> answers(i) == Pending
    ensures r == Expired ==> session.time >= session.deadline
    ensures r == Failed ==> requests > 0 && answers(requests - 1) in {Rejected, Broken}
    ensures r == Aborted ==> canceled(requests)
    ensures r in {Expired, Aborted} ==> requests == 0 || answers(requests - 1) == Pending
    ensures forall k :: 0 <= k < requests ==>
      session.polls[k].0 == Starts(old(session.lastPoll), old(session.time), session.interval, delays, k)
    ensures forall n: nat ::
      Decides(session.deadline, old(session.lastPoll), old(session.time), session.interval, delays,
              canceled, answers, n)
      ==> requests == n + 1 && r == if answers(n) == Granted then LoggedIn else Failed
    ensures r == Expired && !canceled(requests) ==>
      Starts(old(session.lastPoll), old(session.time), session.interval, delays, requests) >= session.deadline
  {
    hide *;
    ghost var last0, time0 := session.lastPoll, session.time;
    var turn := 0;
    while true
      invariant session.Valid() && turn == |session.polls|
      invariant forall i :: 0 <= i < turn ==> answers(i) == Pending
      invariant if turn == 0 then session.lastPoll == last0 && session.time == time0
        else
          && session.lastPoll == session.time
          && session.time == Starts(last0, time0, session.interval, delays, turn - 1) + delays(turn - 1).request
      invariant forall k :: 0 <= k < turn ==>
        session.polls[k].0 == Starts(last0, time0, session.interval, delays, k) < session.deadline
      decreases 300 - turn
    {
      FewerThanThreeHundred(session);
      NextStart(last0, time0, session.interval, delays, turn);
      forall n: nat | Decides(session.deadline, last0, time0, session.interval, delays, canceled, answers, n)
        ensures turn <= n && Starts(last0, time0, session.interval, delays, turn) < session.deadline
        ensures !canceled(turn) && (turn < n ==> answers(turn) == Pending)
      {
        DecidesLater(session.deadline, last0, time0, session.interval, delays, canceled, answers, n, turn);
      }
      var poll := session.PollOnce(delays(turn), canceled(turn), answers(turn));
      FewerThanThreeHundred(session);
      requests := |session.polls|;
      match poll {
        case TimedOut => return Expired, requests;
        case Canceled => return Aborted, requests;
        case Status(answer) =>
          if answer.Granted? {
            return LoggedIn, requests;
          }
          if !answer.Pending? {
            return Failed, requests;
          }
      }
      turn := turn + 1;
    }
  }

  lemma NextStart(lastPoll: int, time: int, interval: int, delays: nat -> Delays, k: nat)
    ensures Starts(lastPoll, time, interval, delays, k)
         == if k == 0 then StartOf(lastPoll, time, interval, delays(0))
            else
              var end := Starts(lastPoll, time, interval, delays, k - 1) + delays(k - 1).request;
              StartOf(end, end, interval, delays(k))
  {
  }
}
