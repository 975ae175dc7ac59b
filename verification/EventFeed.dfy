/**
 * The event feed of a task: packages/domain/services/task_events.py and the poll
 * loop of stream_task_events_endpoint (apps/api/routers/tasks.py). A snapshot is
 * what one poll sees of the event table.
 */
module EventFeed {
  import opened Results

  datatype Event = Event(id: nat, task: string, body: string)

  type Table = seq<Event>

  /** The primary key. */
  predicate UniqueIds(t: Table) {
    forall i, j :: 0 <= i < j < |t| ==> t[i].id != t[j].id
  }

  predicate Increasing(s: seq<Event>) {
    forall i, j :: 0 <= i < j < |s| ==> s[i].id < s[j].id
  }

  predicate Wanted(e: Event, task: string, since: nat) {
    e.task == task && e.id > since
  }

  /** ORDER BY id, one row at a time. */
  function Insert(s: seq<Event>, e: Event): (r: seq<Event>)
    ensures forall x :: x in r <==> x in s || x == e
  {
    if s == [] then [e]
    else if s[|s| - 1].id < e.id then s + [e]
    else Insert(s[..|s| - 1], e) + [s[|s| - 1]]
  }

  lemma {:induction false} InsertKeepsOrder(s: seq<Event>, e: Event)
    requires Increasing(s) && forall i :: 0 <= i < |s| ==> s[i].id != e.id
    ensures Increasing(Insert(s, e))
  {
    if s != [] && s[|s| - 1].id > e.id {
      var init := s[..|s| - 1];
      InsertKeepsOrder(init, e);
      var r := Insert(init, e);
      forall i | 0 <= i < |r|
        ensures r[i].id < s[|s| - 1].id
      {
        assert r[i] in r;
      }
    }
  }

  /** list_task_events: the task's rows past the cursor, in id order. */
  function Select(t: Table, task: string, since: nat): (r: seq<Event>)
    ensures forall e :: e in r <==> e in t && Wanted(e, task, since)
  {
    if t == [] then []
    else
      var last := t[|t| - 1];
      var rest := Select(t[..|t| - 1], task, since);
      assert t == t[..|t| - 1] + [last];
      if Wanted(last, task, since) then Insert(rest, last) else rest
  }

  lemma {:induction false} SelectIsOrdered(t: Table, task: string, since: nat)
    requires UniqueIds(t)
    ensures Increasing(Select(t, task, since))
  {
    if t != [] {
      var init, last := t[..|t| - 1], t[|t| - 1];
      SelectIsOrdered(init, task, since);
      var rest := Select(init, task, since);
      forall i | 0 <= i < |rest|
        ensures rest[i].id != last.id
      {
        assert rest[i] in init;
      }
      InsertKeepsOrder(rest, last);
    }
  }

  /** Two increasing sequences with the same members are the same. */
  lemma {:induction false} SameMembers(a: seq<Event>, b: seq<Event>)
    requires Increasing(a) && Increasing(b) && forall e :: e in a <==> e in b
    ensures a == b
  {
    assert b != [] ==> b[0] in a;
    if a != [] {
      assert a[0] in b;
      var i, j := |a| - 1, |b| - 1;
      assert a[i] in b && b[j] in a;
      assert a[i] == b[j];
      DropLast(a);
      DropLast(b);
      var a', b' := a[..i], b[..j];
      forall e
        ensures e in a' <==> e in b'
      {
        assert e in a' <==> e in a && e != a[i];
        assert e in b' <==> e in b && e != b[j];
      }
      SameMembers(a', b');
    }
  }

  lemma DropLast(s: seq<Event>)
    requires Increasing(s) && s != []
    ensures Increasing(s[..|s| - 1]) && s == s[..|s| - 1] + [s[|s| - 1]]
    ensures forall e :: e in s[..|s| - 1] <==> e in s && e != s[|s| - 1]
  {
    assert s == s[..|s| - 1] + [s[|s| - 1]];
  }

  // ---- The poll loop ---------------------------------------------------------------------------

  /** local_since: the id of the last event sent. */
  function Cursor(since: nat, sent: seq<Event>): nat {
    if sent == [] then since else sent[|sent| - 1].id
  }

  /** Everything an unbounded stream has sent after the given polls. */
  function Feed(polls: seq<Table>, task: string, since: nat): seq<Event> {
    if polls == [] then []
    else
      var sent := Feed(polls[..|polls| - 1], task, since);
      sent + Select(polls[|polls| - 1], task, Cursor(since, sent))
  }

  function Truncate(max: Option<nat>, s: seq<Event>): seq<Event> {
    if max.Some? && max.value < |s| then s[..max.value] else s
  }

  lemma {:induction false} FeedGrows(polls: seq<Table>, k: nat, task: string, since: nat)
    requires k <= |polls|
    ensures Feed(polls[..k], task, since) <= Feed(polls, task, since)
  {
    if k == |polls| {
      assert polls[..k] == polls;
    } else {
      FeedGrows(polls[..|polls| - 1], k, task, since);
      assert polls[..|polls| - 1][..k] == polls[..k];
    }
  }

  /** What a stream has sent, and whether it ended: at its bound, or by the error of a poll that finds no task. */
  datatype Sent = Sent(events: seq<Event>, keepAlives: nat, finished: bool, broken: bool)

  /** The polls up to the first one that finds no task. */
  function Answered(polls: seq<Option<Table>>): (r: seq<Table>)
    ensures |r| <= |polls| && forall k :: 0 <= k < |r| ==> polls[k] == Some(r[k])
    ensures |r| < |polls| ==> polls[|r|].None?
  {
    if polls == [] || polls[0].None? then [] else [polls[0].value] + Answered(polls[1..])
  }

  /** How many of the polls found nothing to send. */
  function EmptyPolls(polls: seq<Table>, task: string, since: nat): nat {
    if polls == [] then 0
    else
      var init := polls[..|polls| - 1];
      EmptyPolls(init, task, since)
      + if Feed(polls, task, since) == Feed(init, task, since) then 1 else 0
  }

  /** The inner loop: send events until max_events is reached. */
  method SendEvents(before: seq<Event>, events: seq<Event>, max: Option<nat>) returns (sent: seq<Event>, finished: bool)
    requires max.Some? ==> |before| < max.value
    ensures sent == Truncate(max, before + events)
    ensures finished <==> max.Some? && |before + events| >= max.value
  {
    sent := before;
    for i := 0 to |events|
      invariant sent == before + events[..i]
      invariant max.Some? ==> |sent| < max.value
    {
      sent := sent + [events[i]];
      assert sent == before + events[..i + 1] == (before + events)[..|before| + i + 1];
      if max.Some? && |sent| >= max.value {
        assert sent == Truncate(max, before + events);
        return sent, true;
      }
    }
    finished := false;
  }

  /** What has been sent when the bound is reached stays the answer, whatever is polled later. */
  lemma TruncateGrows(max: Option<nat>, a: seq<Event>, b: seq<Event>)
    requires a <= b && max.Some? && |a| >= max.value
    ensures Truncate(max, a) == Truncate(max, b)
  {}

  /** What is cut at the bound is a prefix of exactly that length. */
  lemma CutAtBound(max: Option<nat>, s: seq<Event>)
    ensures Truncate(max, s) <= s
    ensures max.Some? && |s| >= max.value ==> |Truncate(max, s)| == max.value
    ensures !(max.Some? && |s| >= max.value) ==> Truncate(max, s) == s
  {}

  /**
   * stream_task_events_endpoint over the polls it gets to make: it sends the
   * feed up to max_events, stops exactly when that bound is reached, sends one
   * keep-alive for every poll that found nothing, and breaks off exactly when a
   * poll before that finds no task. A stream that stops at its bound has sent
   * exactly max_events events, the first of the feed; any other the whole feed.
   */
  method StreamTaskEvents(taskExists: bool, polls: seq<Option<Table>>, task: string, since: nat, max: Option<nat>)
    returns (r: Result<Sent, string>)
    requires max.Some? ==> max.value >= 1
    ensures r.Failure? <==> !taskExists
    ensures r.Success? ==>
              var tables := Answered(polls);
              && r.value.events == Truncate(max, Feed(tables, task, since))
              && (r.value.finished <==> max.Some? && |Feed(tables, task, since)| >= max.value)
              && (r.value.broken <==> !r.value.finished && |tables| < |polls|)
              && (!r.value.finished ==> r.value.keepAlives == EmptyPolls(tables, task, since))
              && r.value.events <= Feed(tables, task, since)
              && (r.value.finished ==> |r.value.events| == max.value)
              && (!r.value.finished ==> r.value.events == Feed(tables, task, since))
  {
    CutAtBound(max, Feed(Answered(polls), task, since));
    hide Truncate, Select, Answered;
    if !taskExists {
      return Failure("TASK_NOT_FOUND");
    }
    var localSince := since;
    var sent: seq<Event> := [];
    var keepAlives := 0;
    ghost var tables := Answered(polls);
    for k := 0 to |polls|
      invariant k <= |tables|
      invariant sent == Feed(tables[..k], task, since)
      invariant localSince == Cursor(since, sent)
      invariant keepAlives == EmptyPolls(tables[..k], task, since)
      invariant max.Some? ==> |sent| < max.value
    {
      if polls[k].None? {
        assert tables[..|tables|] == tables;
        Untruncated(max, sent);
        return Success(Sent(sent, keepAlives, false, true));
      }
      assert tables[..k + 1][..k] == tables[..k] && tables[..k + 1][k] == polls[k].value;
      var events := Select(polls[k].value, task, localSince);
      if events != [] {
        ghost var all := sent + events;
        assert all == Feed(tables[..k + 1], task, since);
        var finished;
        sent, finished := SendEvents(sent, events, max);
        if finished {
          FeedGrows(tables, k + 1, task, since);
          TruncateGrows(max, all, Feed(tables, task, since));
          return Success(Sent(sent, keepAlives, true, false));
        }
        Untruncated(max, all);
        localSince := events[|events| - 1].id;
      } else {
        assert sent + [] == sent;
        keepAlives := keepAlives + 1;
      }
    }
    assert tables[..|tables|] == tables;
    Untruncated(max, sent);
    return Success(Sent(sent, keepAlives, false, false));
  }

  lemma Untruncated(max: Option<nat>, s: seq<Event>)
    requires max.Some? ==> |s| < max.value
    ensures Truncate(max, s) == s
  {}

  /** The poll has no event of the task past the cursor. */
  predicate IsQuiet(t: Table, task: string, cursor: nat) {
    forall e :: e in t && e.task == task ==> e.id <= cursor
  }

  /** The polls that had nothing past what had been sent. */
  function QuietPolls(polls: seq<Table>, task: string, since: nat): set<nat> {
    set k: nat | k < |polls| && IsQuiet(polls[k], task, Cursor(since, Feed(polls[..k], task, since)))
  }

  lemma QuietFindsNothing(t: Table, task: string, cursor: nat)
    ensures IsQuiet(t, task, cursor) <==> Select(t, task, cursor) == []
  {
    var found := Select(t, task, cursor);
    if found != [] {
      assert found[0] in found;
    }
  }

  lemma OneMorePoll(polls: seq<Table>, task: string, since: nat)
    requires polls != []
    ensures var init, last := polls[..|polls| - 1], |polls| - 1;
            var quiet := QuietPolls(init, task, since);
            && last !in quiet
            && QuietPolls(polls, task, since)
                 == if IsQuiet(polls[last], task, Cursor(since, Feed(init, task, since))) then quiet + {last} else quiet
  {
    hide Feed, IsQuiet, Cursor;
    var init, last := polls[..|polls| - 1], |polls| - 1;
    assert forall k :: 0 <= k <= last ==> init[..k] == polls[..k];
  }

  /** Keep-alives are sent for exactly the polls with nothing new. */
  lemma {:induction false} KeepAlivesAreQuietPolls(polls: seq<Table>, task: string, since: nat)
    ensures EmptyPolls(polls, task, since) == |QuietPolls(polls, task, since)|
  {
    if polls != [] {
      hide QuietPolls, Select, IsQuiet, Cursor;
      var init, last := polls[..|polls| - 1], |polls| - 1;
      KeepAlivesAreQuietPolls(init, task, since);
      OneMorePoll(polls, task, since);
      var sent := Feed(init, task, since);
      QuietFindsNothing(polls[last], task, Cursor(since, sent));
      assert |Feed(polls, task, since)| == |sent| + |Select(polls[last], task, Cursor(since, sent))|;
    }
  }

  // ---- In order, no repeats ----------------------------------------------------------------------

  predicate Keyed(polls: seq<Table>) {
    forall k :: 0 <= k < |polls| ==> UniqueIds(polls[k])
  }

  predicate SentUpTo(sent: seq<Event>, task: string, since: nat) {
    && Increasing(sent)
    && forall i :: 0 <= i < |sent| ==> Wanted(sent[i], task, since) && sent[i].id <= Cursor(since, sent)
  }

  lemma SendMore(sent: seq<Event>, more: seq<Event>, task: string, since: nat)
    requires SentUpTo(sent, task, since) && Increasing(more)
    requires forall i :: 0 <= i < |more| ==> Wanted(more[i], task, Cursor(since, sent))
    ensures SentUpTo(sent + more, task, since)
  {
    var all := sent + more;
    forall i | 0 <= i < |all|
      ensures Wanted(all[i], task, since) && all[i].id <= Cursor(since, all)
    {
      var last := all[|all| - 1];
      if i < |sent| {
        assert all[i] == sent[i];
        assert more != [] ==> last == more[|more| - 1];
      } else {
        assert all[i] == more[i - |sent|] && last == more[|more| - 1];
        assert sent != [] ==> Wanted(sent[|sent| - 1], task, since);
      }
    }
  }

  /** Whatever the polls see, the stream is strictly increasing past the starting cursor: nothing is repeated. */
  lemma {:induction false} FeedIsIncreasing(polls: seq<Table>, task: string, since: nat)
    requires Keyed(polls)
    ensures SentUpTo(Feed(polls, task, since), task, since)
    ensures forall e :: e in Feed(polls, task, since)
              ==> Wanted(e, task, since) && e.id <= Cursor(since, Feed(polls, task, since))
  {
    if polls != [] {
      hide Increasing, Select;
      var init, last := polls[..|polls| - 1], polls[|polls| - 1];
      FeedIsIncreasing(init, task, since);
      var before := Feed(init, task, since);
      var c := Cursor(since, before);
      SelectIsOrdered(last, task, c);
      var more := Select(last, task, c);
      forall i | 0 <= i < |more|
        ensures Wanted(more[i], task, c)
      {
        assert more[i] in more;
      }
      SendMore(before, more, task, since);
    }
  }

  // ---- Exactly when nothing is missed -----------------------------------------------------------

  /** Rows are never removed or changed. */
  predicate InsertOnly(polls: seq<Table>) {
    forall k :: 0 < k < |polls| ==> Keeps(polls[k - 1], polls[k])
  }

  predicate Keeps(a: Table, b: Table) {
    forall e :: e in a ==> e in b
  }

  /** A row that a poll sees for the first time lies past the rows of its task seen before. */
  predicate NewRowsAreLast(a: Table, b: Table, task: string, since: nat) {
    forall e, m :: e in b && e !in a && Wanted(e, task, since) && m in a && Wanted(m, task, since) ==> m.id < e.id
  }

  predicate VisibleInOrder(polls: seq<Table>, task: string, since: nat) {
    forall k :: 0 < k < |polls| ==> NewRowsAreLast(polls[k - 1], polls[k], task, since)
  }

  lemma {:induction false} FeedIsFromTheTable(polls: seq<Table>, task: string, since: nat)
    requires polls != [] && InsertOnly(polls)
    ensures forall e :: e in Feed(polls, task, since) ==> e in polls[|polls| - 1]
  {
    if |polls| > 1 {
      var init := polls[..|polls| - 1];
      FeedIsFromTheTable(init, task, since);
      assert Keeps(polls[|polls| - 2], polls[|polls| - 1]);
    }
  }

  /** One more poll keeps the feed complete exactly if its new rows come last. */
  lemma StepIsComplete(polls: seq<Table>, task: string, since: nat)
    requires |polls| > 1 && Keyed(polls) && InsertOnly(polls)
    requires var init := polls[..|polls| - 1];
             Feed(init, task, since) == Select(init[|init| - 1], task, since)
    ensures Feed(polls, task, since) == Select(polls[|polls| - 1], task, since)
       <==> NewRowsAreLast(polls[|polls| - 2], polls[|polls| - 1], task, since)
  {
    var init := polls[..|polls| - 1];
    var a, b := polls[|polls| - 2], polls[|polls| - 1];
    var before, all := Feed(init, task, since), Select(b, task, since);
    var sent := Feed(polls, task, since);
    FeedIsIncreasing(init, task, since);
    FeedIsIncreasing(polls, task, since);
    SelectIsOrdered(b, task, since);
    assert Keeps(a, b);
    assert before != [] ==> before[|before| - 1] in before;
    if NewRowsAreLast(a, b, task, since) {
      forall e
        ensures e in sent <==> e in all
      {
      }
      SameMembers(sent, all);
    }
    if sent == all {
      forall e, m | e in b && e !in a && Wanted(e, task, since) && m in a && Wanted(m, task, since)
        ensures m.id < e.id
      {
        assert e in sent && e !in before && m in before;
      }
    }
  }

  /** What one poll leaves behind stays behind. */
  lemma MissedStaysMissed(polls: seq<Table>, task: string, since: nat)
    requires |polls| > 1 && Keyed(polls) && InsertOnly(polls)
    requires Feed(polls, task, since) == Select(polls[|polls| - 1], task, since)
    ensures var init := polls[..|polls| - 1];
            Feed(init, task, since) == Select(init[|init| - 1], task, since)
  {
    var init := polls[..|polls| - 1];
    var a := init[|init| - 1];
    var before, all := Feed(init, task, since), Select(a, task, since);
    FeedIsIncreasing(init, task, since);
    FeedIsFromTheTable(init, task, since);
    SelectIsOrdered(a, task, since);
    assert Keeps(a, polls[|polls| - 1]);
    forall e | e in all
      ensures e in before
    {
      SeenOrBehind(init, task, since, e);
      assert e in Feed(polls, task, since);
    }
    SameMembers(before, all);
  }

  /** A wanted row that a poll saw has been sent, or lies at or before the cursor. */
  lemma SeenOrBehind(polls: seq<Table>, task: string, since: nat, e: Event)
    requires polls != [] && Keyed(polls) && e in polls[|polls| - 1] && Wanted(e, task, since)
    ensures e in Feed(polls, task, since) || e.id <= Cursor(since, Feed(polls, task, since))
  {
    var init := polls[..|polls| - 1];
    var before, sent := Feed(init, task, since), Feed(polls, task, since);
    FeedIsIncreasing(init, task, since);
    FeedIsIncreasing(polls, task, since);
    if e.id <= Cursor(since, before) {
      assert before != [] ==> before[|before| - 1] in sent;
    }
  }

  lemma VisibleInOrderStep(polls: seq<Table>, task: string, since: nat)
    requires |polls| > 1
    ensures var init := polls[..|polls| - 1];
            && (Keyed(polls) ==> Keyed(init))
            && (InsertOnly(polls) ==> InsertOnly(init))
            && VisibleInOrder(polls, task, since)
               == (VisibleInOrder(init, task, since)
                   && NewRowsAreLast(polls[|polls| - 2], polls[|polls| - 1], task, since))
  {
    hide NewRowsAreLast, Keeps, UniqueIds;
    var init := polls[..|polls| - 1];
    assert forall k :: 0 <= k < |init| ==> init[k] == polls[k];
    assert VisibleInOrder(polls, task, since) ==> VisibleInOrder(init, task, since) by {
      forall k | 0 < k < |init| && VisibleInOrder(polls, task, since)
        ensures NewRowsAreLast(init[k - 1], init[k], task, since)
      {
        assert NewRowsAreLast(polls[k - 1], polls[k], task, since);
      }
    }
    forall k | 0 < k < |polls| && VisibleInOrder(init, task, since)
               && NewRowsAreLast(polls[|polls| - 2], polls[|polls| - 1], task, since)
      ensures NewRowsAreLast(polls[k - 1], polls[k], task, since)
    {
      assert k < |init| ==> NewRowsAreLast(init[k - 1], init[k], task, since);
    }
  }

  lemma OnePoll(polls: seq<Table>, task: string, since: nat)
    requires |polls| == 1
    ensures Feed(polls, task, since) == Select(polls[0], task, since) && VisibleInOrder(polls, task, since)
  {
    assert polls[..0] == [];
    assert [] + Select(polls[0], task, since) == Select(polls[0], task, since);
  }

  /**
   * The stream sends exactly the task's events past the cursor, in order and
   * without a gap, if and only if rows became visible in id order.
   */
  lemma {:induction false} FeedIsCompleteIff(polls: seq<Table>, task: string, since: nat)
    requires polls != [] && Keyed(polls) && InsertOnly(polls)
    ensures Feed(polls, task, since) == Select(polls[|polls| - 1], task, since)
       <==> VisibleInOrder(polls, task, since)
  {
    hide *;
    if |polls| == 1 {
      OnePoll(polls, task, since);
    } else {
      VisibleInOrderStep(polls, task, since);
      FeedIsCompleteIff(polls[..|polls| - 1], task, since);
      if Feed(polls, task, since) == Select(polls[|polls| - 1], task, since) {
        MissedStaysMissed(polls, task, since);
        StepIsComplete(polls, task, since);
      } else if VisibleInOrder(polls, task, since) {
        StepIsComplete(polls, task, since);
      }
    }
  }

  // ---- Interleavings of appends and polls ----------------------------------------------------------

  /** An append skips as many keys as rolled-back transactions have used up. */
  datatype Step = Append(task: string, body: string, skipped: nat) | Poll

  /** The table so far, and what each poll saw. */
  datatype Run = Run(table: Table, polls: seq<Table>)

  /** append_task_event: the key lies past every key used before. */
  function AppendTaskEvent(t: Table, task: string, body: string, skipped: nat): Table {
    t + [Event((if t == [] then 0 else t[|t| - 1].id) + 1 + skipped, task, body)]
  }

  function RunOf(steps: seq<Step>): Run {
    if steps == [] then Run([], [])
    else
      var r := RunOf(steps[..|steps| - 1]);
      match steps[|steps| - 1]
      case Append(task, body, skipped) => r.(table := AppendTaskEvent(r.table, task, body, skipped))
      case Poll => r.(polls := r.polls + [r.table])
  }

  /** Each snapshot is an initial part of the next. */
  predicate Chained(polls: seq<Table>) {
    forall k :: 0 < k < |polls| ==> polls[k - 1] <= polls[k]
  }

  lemma {:induction false} RunsAreChained(steps: seq<Step>)
    ensures var r := RunOf(steps);
            && Increasing(r.table) && Chained(r.polls)
            && (forall k :: 0 <= k < |r.polls| ==> Increasing(r.polls[k]))
            && (r.polls != [] ==> r.polls[|r.polls| - 1] <= r.table)
  {
    if steps != [] {
      RunsAreChained(steps[..|steps| - 1]);
    }
  }

  lemma ChainedIsInOrder(polls: seq<Table>, task: string, since: nat)
    requires Chained(polls) && forall k :: 0 <= k < |polls| ==> Increasing(polls[k])
    ensures Keyed(polls) && InsertOnly(polls) && VisibleInOrder(polls, task, since)
  {
    forall k | 0 < k < |polls|
      ensures Keeps(polls[k - 1], polls[k]) && NewRowsAreLast(polls[k - 1], polls[k], task, since)
    {
      var a, b := polls[k - 1], polls[k];
      assert Increasing(a) && Increasing(b);
      assert forall x :: 0 <= x < |a| ==> b[x] in a;
      forall e, m | e in b && e !in a && m in a
        ensures m.id < e.id
      {
        var i :| 0 <= i < |b| && b[i] == e;
      }
    }
  }

  /**
   * For every interleaving of appends (to any tasks) and polls, the stream has
   * sent exactly the task's events past the cursor that the last poll could see.
   */
  lemma AnyInterleaving(steps: seq<Step>, task: string, since: nat)
    requires RunOf(steps).polls != []
    ensures var polls := RunOf(steps).polls;
            Feed(polls, task, since) == Select(polls[|polls| - 1], task, since)
  {
    RunsAreChained(steps);
    var polls := RunOf(steps).polls;
    ChainedIsInOrder(polls, task, since);
    FeedIsCompleteIff(polls, task, since);
  }

  /** A row that becomes visible behind the cursor is never sent. */
  lemma LateRowIsLost(task: string)
    ensures var a, b := [Event(2, task, "second")], [Event(2, task, "second"), Event(1, task, "first")];
            && Keyed([a, b]) && InsertOnly([a, b])
            && Feed([a, b], task, 0) != Select(b, task, 0)
  {
    var a, b := [Event(2, task, "second")], [Event(2, task, "second"), Event(1, task, "first")];
    var polls := [a, b];
    assert Keeps(a, b);
    assert b[1] in b && b[1] !in a && a[0] in a;
    assert !NewRowsAreLast(a, b, task, 0);
    assert !VisibleInOrder(polls, task, 0) by {
      assert polls[0] == a && polls[1] == b;
    }
    FeedIsCompleteIff(polls, task, 0);
  }
}
