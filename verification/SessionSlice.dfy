// Which events of a log a session checkpoint reads, stated on positions of the log.
module SessionSlice {
  import opened Basics
  import opened Domain
  import opened Database
  import opened CheckpointSession

  // An event of this durable scope and session.
  predicate OfSession(event: Event, scope: Scope, session: string) {
    event.scope.Durable() == scope.Durable() && event.scope.sessionId == Some(session)
  }

  // How many events of the session are logged at `from` or later.
  function CountFrom(events: seq<Event>, scope: Scope, session: string, from: nat): nat {
    if |events| <= from then 0
    else
      CountFrom(events[..|events| - 1], scope, session, from)
      + if OfSession(events[|events| - 1], scope, session) then 1 else 0
  }

  // A prompt typed by the user.
  predicate Prompts(event: Event) {
    event.kind == ConversationTurn && event.attributes.role == Some("user")
  }

  // The event belongs to the session and is one of its newest 128; neither it nor
  // a later event of the session is a checkpoint, and no later one is a prompt.
  predicate Read(events: seq<Event>, scope: Scope, session: string, i: nat) {
    && i < |events| && OfSession(events[i], scope, session)
    && CountFrom(events, scope, session, i + 1) < 128
    && events[i].kind != Checkpoint
    && forall j | i < j < |events| && OfSession(events[j], scope, session) ::
         events[j].kind != Checkpoint && !Prompts(events[j])
  }

  // These events of the log, in its order.
  ghost predicate Picks(events: seq<Event>, at: seq<nat>, slice: seq<Event>) {
    && |at| == |slice|
    && (forall k | 0 <= k < |at| :: at[k] < |events| && slice[k] == events[at[k]])
    && (forall k, l | 0 <= k < l < |at| :: at[k] < at[l])
  }

  // The events that are read, all of them, in log order.
  ghost predicate ReadsExactly(events: seq<Event>, scope: Scope, session: string, slice: seq<Event>) {
    exists at :: Picks(events, at, slice) && forall i: nat :: i in at <==> Read(events, scope, session, i)
  }

  lemma SameSession(event: Event, scope: Scope, session: string)
    ensures InSession(event, scope, session) == OfSession(event, scope, session)
  {
    DurableScopeIsEventScope(event.scope, scope);
  }

  // --- the newest rows --------------------------------------------------

  lemma {:induction false} CountGrows(events: seq<Event>, scope: Scope, session: string, i: nat, j: nat)
    requires i <= j
    ensures CountFrom(events, scope, session, j) <= CountFrom(events, scope, session, i)
    decreases |events|
  {
    hide OfSession;
    if |events| > i { CountGrows(events[..|events| - 1], scope, session, i, j); }
  }

  // Positions of the rows, newest first.
  ghost predicate Indexes(
    events: seq<Event>, scope: Scope, session: string, limit: nat, rows: seq<Event>, at: seq<nat>)
  {
    && |at| == |rows|
    && (forall k | 0 <= k < |at| :: at[k] < |events| && rows[k] == events[at[k]])
    && (forall k, l | 0 <= k < l < |at| :: at[k] > at[l])
    && (forall i: nat :: i in at <==> Newest(events, scope, session, limit, i))
  }

  // Whether the event at `i` is among the newest `limit` of the session.
  predicate Newest(events: seq<Event>, scope: Scope, session: string, limit: nat, i: nat) {
    i < |events| && OfSession(events[i], scope, session) && CountFrom(events, scope, session, i + 1) < limit
  }

  lemma NewestInFront(events: seq<Event>, scope: Scope, session: string, limit: nat, i: nat)
    requires events != [] && limit > 0
    ensures var n := |events| - 1;
            Newest(events, scope, session, limit, i)
            <==> if i == n then OfSession(events[n], scope, session)
                 else Newest(events[..n], scope, session,
                             if OfSession(events[n], scope, session) then limit - 1 else limit, i)
  {
    hide OfSession;
  }

  lemma RowAdded(events: seq<Event>, scope: Scope, session: string, limit: nat, rows: seq<Event>, at: seq<nat>)
    requires events != [] && limit > 0 && OfSession(events[|events| - 1], scope, session)
    requires Indexes(events[..|events| - 1], scope, session, limit - 1, rows, at)
    ensures Indexes(events, scope, session, limit, [events[|events| - 1]] + rows, [|events| - 1] + at)
  {
    hide OfSession, Newest;
    var n := |events| - 1;
    var all := [n] + at;
    forall i: nat ensures i in all <==> Newest(events, scope, session, limit, i) {
      NewestInFront(events, scope, session, limit, i);
      if i == n {
        assert all[0] == n;
      } else {
        assert i in all <==> i in at;
      }
    }
  }

  lemma RowSkipped(events: seq<Event>, scope: Scope, session: string, limit: nat, rows: seq<Event>, at: seq<nat>)
    requires events != [] && limit > 0 && !OfSession(events[|events| - 1], scope, session)
    requires Indexes(events[..|events| - 1], scope, session, limit, rows, at)
    ensures Indexes(events, scope, session, limit, rows, at)
  {
    hide OfSession, Newest;
    forall i: nat ensures i in at <==> Newest(events, scope, session, limit, i) {
      NewestInFront(events, scope, session, limit, i);
    }
  }

  lemma NoneNewest(events: seq<Event>, scope: Scope, session: string, limit: nat)
    requires limit == 0 || events == []
    ensures Indexes(events, scope, session, limit, SessionRows(events, scope, session, limit), [])
  {
  }

  lemma {:induction false} RowPositions(events: seq<Event>, scope: Scope, session: string, limit: nat)
    returns (at: seq<nat>)
    ensures Indexes(events, scope, session, limit, SessionRows(events, scope, session, limit), at)
  {
    hide OfSession, InSession, Indexes;
    if limit == 0 || events == [] {
      at := [];
      NoneNewest(events, scope, session, limit);
    } else {
      var front, last := events[..|events| - 1], events[|events| - 1];
      SameSession(last, scope, session);
      if OfSession(last, scope, session) {
        var earlier := RowPositions(front, scope, session, limit - 1);
        at := [|events| - 1] + earlier;
        RowAdded(events, scope, session, limit, SessionRows(front, scope, session, limit - 1), earlier);
      } else {
        at := RowPositions(front, scope, session, limit);
        RowSkipped(events, scope, session, limit, SessionRows(front, scope, session, limit), at);
      }
    }
  }

  // --- the cut ----------------------------------------------------------

  // A row survives the cut when it is no checkpoint and nothing newer stops there.
  lemma {:induction false} CutExact(rows: seq<Event>, k: nat)
    requires k < |rows|
    ensures var cut := CutAtPrompt(rows);
            && cut <= rows
            && (k < |cut| <==> rows[k].kind != Checkpoint
                               && forall j | 0 <= j < k :: rows[j].kind != Checkpoint && !Prompts(rows[j]))
  {
    if k > 0 {
      CutExact(rows[1..], k - 1);
      assert forall j | 0 < j < k :: rows[j] == rows[1..][j - 1];
    } else if |rows| > 1 {
      CutExact(rows[1..], 0);
    }
  }

  lemma NewerIsRow(
    events: seq<Event>, scope: Scope, session: string, rows: seq<Event>, at: seq<nat>, k: nat, j: nat)
    requires Indexes(events, scope, session, SESSION_LIMIT, rows, at) && k < |at| && at[k] < j < |events|
    requires OfSession(events[j], scope, session)
    ensures exists l :: 0 <= l < k && at[l] == j
  {
    hide OfSession;
    assert at[k] in at;
    CountGrows(events, scope, session, at[k] + 1, j + 1);
    assert j in at;
    var l :| 0 <= l < |at| && at[l] == j;
  }

  lemma RowIsRead(events: seq<Event>, scope: Scope, session: string, rows: seq<Event>, at: seq<nat>, k: nat)
    requires Indexes(events, scope, session, SESSION_LIMIT, rows, at) && k < |at|
    ensures Read(events, scope, session, at[k])
       <==> rows[k].kind != Checkpoint && forall j | 0 <= j < k :: rows[j].kind != Checkpoint && !Prompts(rows[j])
  {
    hide OfSession, Prompts;
    assert at[k] in at;
    if rows[k].kind != Checkpoint && forall j | 0 <= j < k :: rows[j].kind != Checkpoint && !Prompts(rows[j]) {
      forall j | at[k] < j < |events| && OfSession(events[j], scope, session)
        ensures events[j].kind != Checkpoint && !Prompts(events[j])
      {
        NewerIsRow(events, scope, session, rows, at, k, j);
        var l :| 0 <= l < k && at[l] == j;
        assert rows[l] == events[j];
      }
    }
    if Read(events, scope, session, at[k]) {
      forall j | 0 <= j < k ensures rows[j].kind != Checkpoint && !Prompts(rows[j]) {
        assert at[j] in at;
      }
    }
  }

  lemma ReadIsNewest(events: seq<Event>, scope: Scope, session: string, i: nat)
    ensures Read(events, scope, session, i) ==> Newest(events, scope, session, SESSION_LIMIT, i)
  {
  }

  // The cut rows are those that are read.
  lemma CutIsRead(events: seq<Event>, scope: Scope, session: string, rows: seq<Event>, down: seq<nat>)
    requires Indexes(events, scope, session, SESSION_LIMIT, rows, down)
    ensures CutAtPrompt(rows) <= rows
    ensures forall k | 0 <= k < |rows| :: k < |CutAtPrompt(rows)| <==> Read(events, scope, session, down[k])
  {
    hide OfSession, CutAtPrompt, Prompts, Read, Newest;
    if rows == [] { NothingCut(); } else { CutExact(rows, 0); }
    forall k | 0 <= k < |rows| ensures k < |CutAtPrompt(rows)| <==> Read(events, scope, session, down[k]) {
      CutExact(rows, k);
      RowIsRead(events, scope, session, rows, down, k);
    }
  }

  lemma {:induction false} SamePositions(down: seq<nat>)
    ensures forall i: nat :: i in Reversed(down) <==> i in down
  {
    if down != [] {
      SamePositions(down[1..]);
      assert down == [down[0]] + down[1..];
    }
  }

  lemma {:induction false} ReversedPicks(events: seq<Event>, rows: seq<Event>, down: seq<nat>)
    requires |rows| == |down|
    requires forall k | 0 <= k < |down| :: down[k] < |events| && rows[k] == events[down[k]]
    requires forall k, l | 0 <= k < l < |down| :: down[k] > down[l]
    ensures Picks(events, Reversed(down), Reversed(rows))
  {
    if down != [] {
      ReversedPicks(events, rows[1..], down[1..]);
      SamePositions(down[1..]);
      assert forall k | 0 <= k < |down| - 1 :: Reversed(down[1..])[k] in down[1..];
    }
  }

  // The ambient slice is exactly the events of the log that are read, in log order.
  lemma SliceExact(events: seq<Event>, scope: Scope, session: string) returns (at: seq<nat>)
    ensures Picks(events, at, Ambient(events, scope, session))
    ensures forall i: nat :: i in at <==> Read(events, scope, session, i)
  {
    hide OfSession, SessionRows, CutAtPrompt, Prompts, Read, Newest, Reversed;
    var rows := SessionRows(events, scope, session, SESSION_LIMIT);
    var all := RowPositions(events, scope, session, SESSION_LIMIT);
    CutIsRead(events, scope, session, rows, all);
    var n := |CutAtPrompt(rows)|;
    var down := all[..n];
    at := Reversed(down);
    ReversedPicks(events, CutAtPrompt(rows), down);
    SamePositions(down);
    forall i: nat ensures i in down <==> Read(events, scope, session, i) {
      ReadIsNewest(events, scope, session, i);
      if i in all {
        var k :| 0 <= k < |all| && all[k] == i;
        if k < n { assert down[k] == i; }
      }
    }
  }

  lemma NothingCut()
    ensures CutAtPrompt([]) == []
  {
  }
}
