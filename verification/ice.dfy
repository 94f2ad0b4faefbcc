/** Trickled ICE candidates: the buffer filled while punching, and the bridge that sends each local
    candidate twice. */
module IceCandidates {
  import opened Common

  const MAX_PENDING: nat := 64
  const RESEND_DELAY_MS: nat := 400

  // ----- buffering the peer's candidates

  datatype Candidate = Candidate(sessionKey: string, candidate: string)

  predicate Expected(c: Candidate, sessionKey: string) {
    sessionKey != "" && c.sessionKey == sessionKey && c.candidate != ""
  }

  /** The candidates of a stream that belong to the session, in order. */
  function Accepted(stream: seq<Candidate>, sessionKey: string): (s: seq<string>) {
    if stream == [] then []
    else
      var rest, c := Accepted(stream[..|stream| - 1], sessionKey), stream[|stream| - 1];
      if Expected(c, sessionKey) then rest + [c.candidate] else rest
  }

  /** Accepted are exactly the non-empty candidates that carry the session's own, non-empty key. */
  lemma {:induction false} AcceptedIff(stream: seq<Candidate>, sessionKey: string, x: string)
    ensures x in Accepted(stream, sessionKey) <==>
            sessionKey != "" && x != "" && Candidate(sessionKey, x) in stream
  {
    if stream != [] {
      var init := stream[..|stream| - 1];
      AcceptedIff(init, sessionKey, x);
      assert stream == init + [stream[|stream| - 1]];
    }
  }

  /** Accepting goes candidate by candidate. */
  lemma {:induction false} AcceptedInPieces(before: seq<Candidate>, after: seq<Candidate>, sessionKey: string)
    ensures Accepted(before + after, sessionKey) == Accepted(before, sessionKey) + Accepted(after, sessionKey)
  {
    if after == [] {
      assert before + after == before;
    } else {
      var init := after[..|after| - 1];
      AcceptedInPieces(before, init, sessionKey);
      assert (before + after)[..|before + after| - 1] == before + init;
    }
  }

  /** Evicting the oldest on overflow keeps the newest 64 of all accepted candidates. */
  method BufferCandidates(stream: seq<Candidate>, sessionKey: string) returns (pending: seq<string>)
    ensures pending == KeepLast(Accepted(stream, sessionKey), 64)
    ensures sessionKey == "" ==> pending == []
    ensures forall x | x in pending :: x != "" && Candidate(sessionKey, x) in stream
  {
    pending := [];
    for i := 0 to |stream|
      invariant pending == KeepLast(Accepted(stream[..i], sessionKey), MAX_PENDING)
    {
      assert stream[..i + 1][..i] == stream[..i];
      if Expected(stream[i], sessionKey) {
        if |pending| >= MAX_PENDING {
          pending := pending[1..];
        }
        pending := pending + [stream[i].candidate];
      }
    }
    assert stream[..|stream|] == stream;
    forall x | x in pending ensures sessionKey != "" && x != "" && Candidate(sessionKey, x) in stream {
      AcceptedIff(stream, sessionKey, x);
    }
    if pending != [] {
      AcceptedIff(stream, sessionKey, pending[0]);
    }
  }

  // ----- the bridge

  datatype Sent = Sent(at: nat, message: string)

  function Messages(p: seq<Sent>): (m: seq<string>)
    ensures |m| == |p| && forall i | 0 <= i < |p| :: m[i] == p[i].message
  {
    seq(|p|, i requires 0 <= i < |p| => p[i].message)
  }

  /** `Vec::swap_remove`: the last element takes the place of the removed one. */
  function SwapRemove<T>(s: seq<T>, i: nat): (r: seq<T>)
    requires i < |s|
  {
    if i == |s| - 1 then s[..i] else s[..|s| - 1][i := s[|s| - 1]]
  }

  lemma SwapRemoveLosesOne<T>(s: seq<T>, i: nat)
    requires i < |s|
    ensures multiset(SwapRemove(s, i)) + multiset{s[i]} == multiset(s)
  {
    var init := s[..|s| - 1];
    assert s == init + [s[|s| - 1]];
  }

  lemma MessagesAfterSwapRemove(p: seq<Sent>, i: nat)
    requires i < |p|
    ensures multiset(Messages(SwapRemove(p, i))) + multiset{p[i].message} == multiset(Messages(p))
  {
    assert Messages(SwapRemove(p, i)) == SwapRemove(Messages(p), i);
    SwapRemoveLosesOne(Messages(p), i);
  }

  lemma SwapRemoveKeepsTheRest<T>(s: seq<T>, i: nat)
    requires i < |s|
    ensures forall x | x in s && x != s[i] :: x in SwapRemove(s, i)
    ensures forall x | x in SwapRemove(s, i) :: x in s
    ensures |SwapRemove(s, i)| == |s| - 1
    ensures forall j | 0 <= j < |s| - 1 :: SwapRemove(s, i)[j] == if j == i then s[|s| - 1] else s[j]
  {
    var r := SwapRemove(s, i);
    forall x | x in s && x != s[i] ensures x in r {
      var k :| 0 <= k < |s| && s[k] == x;
      assert x == if k == |s| - 1 then r[i] else r[k];
    }
  }

  lemma MessagesAfterPush(p: seq<Sent>, s: Sent)
    ensures multiset(Messages(p + [s])) == multiset(Messages(p)) + multiset{s.message}
  {
    assert Messages(p + [s]) == Messages(p) + [s.message];
  }

  /** What has left the queue since it was `before` was due by `now`. */
  ghost predicate OnlyDueLeft(before: seq<Sent>, queue: seq<Sent>, now: nat) {
    && (forall s | s in queue :: s in before)
    && (forall s | s in before && s !in queue :: s.at + RESEND_DELAY_MS <= now)
  }

  /** The first `k` in the queue were not due at `since`. */
  ghost predicate NotDue(queue: seq<Sent>, k: nat, since: nat) {
    k <= |queue| && forall j | 0 <= j < k :: queue[j].at + RESEND_DELAY_MS > since
  }

  /** The queue went on with what was sent after `since`. */
  ghost predicate Grew(before: seq<Sent>, queue: seq<Sent>, since: nat) {
    before <= queue && forall i | |before| <= i < |queue| :: queue[i].at >= since
  }

  lemma GrewKeeps(before: seq<Sent>, queue: seq<Sent>)
    requires before <= queue
    ensures forall s | s in before :: s in queue
  {
    forall s | s in before ensures s in queue {
      var k :| 0 <= k < |before| && before[k] == s;
      assert queue[k] == s;
    }
  }

  /** First copies equal waiting ones plus second ones, before and after some more were sent. */
  lemma Balance(first: multiset<string>, waiting: multiset<string>, second: multiset<string>,
                first': multiset<string>, waiting': multiset<string>, second': multiset<string>,
                more: multiset<string>)
    requires first == waiting + second + multiset{} && first' == waiting' + second' + multiset{}
    requires first' == first + more
    ensures waiting' + second' == waiting + second + more
  {
    assert waiting + second + multiset{} == waiting + second;
    assert waiting' + second' + multiset{} == waiting' + second';
  }

  lemma TakeOneMore(s: seq<string>, k: nat)
    requires k < |s|
    ensures multiset(s[..k + 1]) == multiset(s[..k]) + multiset{s[k]}
  {
    assert s[..k + 1] == s[..k] + [s[k]];
  }

  lemma DueLeaves(before: seq<Sent>, queue: seq<Sent>, i: nat, now: nat, since: nat)
    requires i < |queue| && OnlyDueLeft(before, queue, now) && NotDue(queue, i, since)
    requires queue[i].at + RESEND_DELAY_MS <= now
    ensures OnlyDueLeft(before, SwapRemove(queue, i), now) && NotDue(SwapRemove(queue, i), i, since)
  {
    SwapRemoveKeepsTheRest(queue, i);
  }

  class IceBridge {
    var pendingResend: seq<Sent>
    var now: nat
    ghost var first: multiset<string>  // first copies handed to the socket
    ghost var second: multiset<string>  // second copies handed to the socket

    /** Every first copy is waiting for its second one, has had it, or is among the lost ones. */
    ghost predicate Accounts(lost: multiset<string>)
      reads this
    {
      first == multiset(Messages(pendingResend)) + second + lost
    }

    /** Nothing is lost, and everything waits from the time it was sent. */
    ghost predicate Valid()
      reads this
    {
      && Accounts(multiset{})
      && forall i | 0 <= i < |pendingResend| :: pendingResend[i].at <= now
    }

    constructor (now: nat)
      ensures Valid() && first == second == multiset{} && this.now == now
    {
      this.now, pendingResend, first, second := now, [], multiset{}, multiset{};
    }

    method Tick()
      requires Valid()
      modifies this`now
      ensures Valid() && now >= old(now)
    {
      var elapsed: nat :| elapsed >= 0;
      now := now + elapsed;
    }

    /** Sends one new local candidate; a failing socket ends the bridge. */
    method SendFirst(message: string) returns (alive: bool)
      requires Valid()
      modifies this
      ensures Valid() && second == old(second) && now >= old(now)
      ensures alive ==> first == old(first) + multiset{message}
      ensures alive ==> pendingResend == old(pendingResend) + [Sent(now, message)]
      ensures !alive ==> pendingResend == old(pendingResend) && first == old(first)
    {
      alive := *;
      Tick();
      if alive {
        MessagesAfterPush(pendingResend, Sent(now, message));
        pendingResend := pendingResend + [Sent(now, message)];
        first := first + multiset{message};
      }
    }

    /** Takes one waiting candidate out and sends its second copy. */
    method SendSecond(i: nat) returns (alive: bool)
      requires Valid() && i < |pendingResend|
      modifies this`pendingResend, this`second
      ensures pendingResend == SwapRemove(old(pendingResend), i)
      ensures alive ==> Valid() && second == old(second) + multiset{old(pendingResend)[i].message}
      ensures !alive ==> second == old(second) && Accounts(multiset{old(pendingResend)[i].message})
    {
      MessagesAfterSwapRemove(pendingResend, i);
      var message := pendingResend[i].message;
      pendingResend := SwapRemove(pendingResend, i);
      alive := *;
      if alive {
        second := second + multiset{message};
      }
    }

    /** Looks at one waiting candidate. */
    method ResendAt(i: nat, ghost before: seq<Sent>, ghost since: nat)
      returns (alive: bool, kept: bool, ghost lost: multiset<string>)
      requires Valid() && i < |pendingResend| && since <= now
      requires OnlyDueLeft(before, pendingResend, now) && NotDue(pendingResend, i, since)
      modifies this`pendingResend, this`second, this`now
      ensures OnlyDueLeft(before, pendingResend, now) && now >= old(now)
      ensures Accounts(lost) && |lost| == (if alive then 0 else 1) && (alive ==> Valid())
      ensures if kept then NotDue(pendingResend, i + 1, since) else NotDue(pendingResend, i, since)
      ensures |pendingResend| == |old(pendingResend)| - (if kept then 0 else 1)
    {
      Tick();
      kept, alive, lost := now - pendingResend[i].at < RESEND_DELAY_MS, true, multiset{};
      if !kept {
        DueLeaves(before, pendingResend, i, now, since);
        ghost var message := pendingResend[i].message;
        alive := SendSecond(i);
        lost := if alive then multiset{} else multiset{message};
      } else {
        assert NotDue(pendingResend, i + 1, since);
      }
    }

    /** Sends the second copy of everything that is due.  Unless the socket fails, nothing that was due
        at the start is left, and only the candidate being sent is lost if it does fail. */
    method ResendDue() returns (alive: bool, ghost lost: multiset<string>)
      requires Valid()
      modifies this`pendingResend, this`second, this`now
      ensures alive ==> Valid() && NotDue(pendingResend, |pendingResend|, old(now))
      ensures OnlyDueLeft(old(pendingResend), pendingResend, now) && now >= old(now)
      ensures Accounts(lost) && |lost| == if alive then 0 else 1
    {
      var i := 0;
      ghost var before, since := pendingResend, now;
      while i < |pendingResend|
        invariant Valid() && now >= since
        invariant OnlyDueLeft(before, pendingResend, now) && NotDue(pendingResend, i, since)
        decreases |pendingResend| - i
      {
        var kept;
        alive, kept, lost := ResendAt(i, before, since);
        if !alive {
          return;
        }
        if kept {
          i := i + 1;
        }
      }
      return true, multiset{};
    }

    /** No candidate is sent more than twice for each first copy, lost ones included, and exactly twice
        when none waits and none is lost. */
    lemma AtMostTwice(message: string, lost: multiset<string>)
      requires Accounts(lost)
      ensures first[message] + second[message] <= 2 * first[message]
      ensures pendingResend == [] && message !in lost ==> first[message] + second[message] == 2 * first[message]
    {
      if pendingResend == [] {
        assert Messages(pendingResend) == [];
      }
    }

    /** The first copies of one turn; `sent` says how many were handed to the socket.  Each waits for its
        second one from then on. */
    method SendAll(gathered: seq<string>) returns (alive: bool, sent: nat)
      requires Valid()
      modifies this
      ensures Valid() && second == old(second) && sent <= |gathered| && now >= old(now)
      ensures first == old(first) + multiset(gathered[..sent])
      ensures alive ==> sent == |gathered|
      ensures Grew(old(pendingResend), pendingResend, old(now))
    {
      sent := 0;
      while sent < |gathered|
        invariant Valid() && second == old(second) && sent <= |gathered| && now >= old(now)
        invariant first == old(first) + multiset(gathered[..sent])
        invariant Grew(old(pendingResend), pendingResend, old(now))
      {
        TakeOneMore(gathered, sent);
        alive := SendFirst(gathered[sent]);
        if !alive {
          return;
        }
        sent := sent + 1;
      }
      return true, sent;
    }

    method WaitUntil(at: nat)
      requires Valid()
      modifies this`now
      ensures Valid() && now >= at && now >= old(now)
    {
      Tick();
      if now < at {
        now := at;
      }
    }

    /** One turn of the bridge's loop: everything gathered gets its first copy, and unless the socket fails,
        everything first sent 400 ms before the turn gets its second one, and nothing sooner. */
    method Round(turn: Turn) returns (alive: bool, ghost lost: multiset<string>)
      requires Valid()
      modifies this
      ensures Accounts(lost) && |lost| <= 1 && now >= turn.at
      ensures first <= old(first) + multiset(turn.gathered)
      ensures alive ==> Valid() && lost == multiset{} && first == old(first) + multiset(turn.gathered)
      ensures alive ==> forall i | 0 <= i < |pendingResend| :: pendingResend[i].at + 400 > turn.at
      ensures alive ==> multiset(Messages(pendingResend)) + second
                        == multiset(Messages(old(pendingResend))) + old(second) + multiset(turn.gathered)
      ensures forall s | s in old(pendingResend) && s !in pendingResend :: s.at + 400 <= now
    {
      ghost var f, p, d := first, multiset(Messages(pendingResend)), second;
      WaitUntil(turn.at);
      var sent;
      lost := multiset{};
      alive, sent := SendAll(turn.gathered);
      assert turn.gathered == turn.gathered[..sent] + turn.gathered[sent..];
      GrewKeeps(old(pendingResend), pendingResend);
      if alive {
        alive, lost := ResendDue();
        if alive {
          Balance(f, p, d, first, multiset(Messages(pendingResend)), second, multiset(turn.gathered));
        }
      }
    }

    /** The bridge over any turns, until the socket fails: however it ends, no candidate is sent more than
        twice for each time it was gathered, and at most one second copy is lost; while the socket works,
        only what was first sent in the 400 ms before the last turn still waits for its second copy. */
    method RunBridge(turns: seq<Turn>) returns (alive: bool, ghost lost: multiset<string>)
      requires Valid() && first == multiset{} && pendingResend == []
      modifies this
      ensures Accounts(lost) && |lost| <= 1
      ensures second <= first <= Gathered(turns)
      ensures alive ==> Valid() && lost == multiset{} && first == Gathered(turns)
      ensures alive && turns != [] ==>
                forall i | 0 <= i < |pendingResend| :: pendingResend[i].at + 400 > turns[|turns| - 1].at
    {
      alive, lost := true, multiset{};
      for i := 0 to |turns|
        invariant Valid() && alive && lost == multiset{} && first == Gathered(turns[..i])
        invariant i > 0 ==> forall j | 0 <= j < |pendingResend| :: pendingResend[j].at + 400 > turns[i - 1].at
      {
        GatheredGrows(turns, i);
        alive, lost := Round(turns[i]);
        if !alive {
          return;
        }
      }
      assert turns[..|turns|] == turns;
    }
  }

  /** One turn of the loop: when it starts at the earliest, and the candidates gathered until then. */
  datatype Turn = Turn(at: nat, gathered: seq<string>)

  /** Everything gathered in some turns. */
  function Gathered(turns: seq<Turn>): (m: multiset<string>) {
    if turns == [] then multiset{} else Gathered(turns[..|turns| - 1]) + multiset(turns[|turns| - 1].gathered)
  }

  lemma {:induction false} GatheredGrows(turns: seq<Turn>, i: nat)
    requires i < |turns|
    ensures Gathered(turns[..i]) + multiset(turns[i].gathered) == Gathered(turns[..i + 1]) <= Gathered(turns)
    decreases |turns| - i
  {
    assert turns[..i + 1][..i] == turns[..i];
    if i + 1 == |turns| {
      assert turns[..i + 1] == turns;
    } else {
      GatheredGrows(turns, i + 1);
    }
  }
}
