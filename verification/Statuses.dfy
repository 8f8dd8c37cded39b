/**
  The polled instrument status (gateio_nt/common/status.py and the status part of
  gateio_nt/data.py). Gate.io has no status channel: the listings are polled one scope at a
  time, each request may fail by itself, and what changed is emitted.
*/
module Statuses {
  import opened Basics

  /** The three actions a listing row maps to. */
  datatype Action = Trading | PreOpen | NotAvailable

  type Cache = map<nat, Action>

  /** A published status; `removed` when its reason is absence from the listing. */
  datatype Emission = Emission(instrument: nat, action: Action, removed: bool)

  /** A listing row: an instrument with the action it maps to, or a row that names none. */
  datatype Row = Listed(instrument: nat, action: Action) | Unusable

  /** The answer to one listing request; None when the request failed. */
  datatype Answer = Answer(scope: nat, rows: Option<seq<Row>>)

  // -- what a round of listings says -------------------------------------

  function WithRows(statuses: Cache, rows: seq<Row>): Cache {
    if rows == [] then statuses else
    var before := WithRows(statuses, rows[..|rows| - 1]);
    var row := rows[|rows| - 1];
    if row.Listed? then before[row.instrument := row.action] else before
  }

  function StatusesOf(answers: seq<Answer>): Cache {
    if answers == [] then map[] else
    var before := StatusesOf(answers[..|answers| - 1]);
    var answer := answers[|answers| - 1];
    if answer.rows.Some? then WithRows(before, answer.rows.value) else before
  }

  function ScopesOf(answers: seq<Answer>): set<nat> {
    set i | 0 <= i < |answers| && answers[i].rows.Some? :: answers[i].scope
  }

  predicate Lists(rows: seq<Row>, id: nat) {
    exists j :: 0 <= j < |rows| && rows[j].Listed? && rows[j].instrument == id
  }

  predicate ListedIn(answers: seq<Answer>, id: nat) {
    exists i :: 0 <= i < |answers| && answers[i].rows.Some? && Lists(answers[i].rows.value, id)
  }

  lemma {:induction false} WithRowsMember(statuses: Cache, rows: seq<Row>, id: nat)
    ensures id in WithRows(statuses, rows) <==> id in statuses || Lists(rows, id)
    decreases |rows|
  {
    if rows != [] {
      var before, last := rows[..|rows| - 1], |rows| - 1;
      WithRowsMember(statuses, before, id);
      if Lists(before, id) {
        var j :| 0 <= j < |before| && before[j].Listed? && before[j].instrument == id;
        assert rows[j] == before[j];
      }
      if Lists(rows, id) && !(rows[last].Listed? && rows[last].instrument == id) {
        var j :| 0 <= j < |rows| && rows[j].Listed? && rows[j].instrument == id;
        assert before[j] == rows[j];
      }
    }
  }

  lemma {:induction false} StatusesMember(answers: seq<Answer>, id: nat)
    ensures id in StatusesOf(answers) <==> ListedIn(answers, id)
    decreases |answers|
  {
    if answers != [] {
      var before, last := answers[..|answers| - 1], |answers| - 1;
      StatusesMember(before, id);
      if answers[last].rows.Some? {
        WithRowsMember(StatusesOf(before), answers[last].rows.value, id);
      }
      if ListedIn(before, id) {
        var i :| 0 <= i < |before| && before[i].rows.Some? && Lists(before[i].rows.value, id);
        assert answers[i] == before[i];
      }
      if ListedIn(answers, id) && !(answers[last].rows.Some? && Lists(answers[last].rows.value, id)) {
        var i :| 0 <= i < |answers| && answers[i].rows.Some? && Lists(answers[i].rows.value, id);
        assert before[i] == answers[i];
      }
    }
  }

  /** The action the last usable row of an instrument states, if one names it. */
  function LastAction(rows: seq<Row>, id: nat): Option<Action> {
    if rows == [] then None
    else if rows[|rows| - 1].Listed? && rows[|rows| - 1].instrument == id then Some(rows[|rows| - 1].action)
    else LastAction(rows[..|rows| - 1], id)
  }

  /** The action of its last row in the last listing that was read and names it. */
  function LastListed(answers: seq<Answer>, id: nat): Option<Action> {
    if answers == [] then None else
    var last := answers[|answers| - 1];
    if last.rows.Some? && LastAction(last.rows.value, id).Some? then LastAction(last.rows.value, id)
    else LastListed(answers[..|answers| - 1], id)
  }

  lemma {:induction false} WithRowsStates(statuses: Cache, rows: seq<Row>, id: nat)
    ensures var last := LastAction(rows, id);
            if last.Some? then id in WithRows(statuses, rows) && WithRows(statuses, rows)[id] == last.value
            else (id in WithRows(statuses, rows) <==> id in statuses)
                 && (id in statuses ==> WithRows(statuses, rows)[id] == statuses[id])
    decreases |rows|
  {
    if rows != [] {
      WithRowsStates(statuses, rows[..|rows| - 1], id);
    }
  }

  /** The last row wins: each instrument is recorded with the action of its last row, and no other is recorded. */
  lemma {:induction false} LastRowWins(answers: seq<Answer>, id: nat)
    ensures id in StatusesOf(answers) <==> LastListed(answers, id).Some?
    ensures id in StatusesOf(answers) ==> StatusesOf(answers)[id] == LastListed(answers, id).value
    decreases |answers|
  {
    if answers != [] {
      var before, last := answers[..|answers| - 1], answers[|answers| - 1];
      LastRowWins(before, id);
      if last.rows.Some? {
        WithRowsStates(StatusesOf(before), last.rows.value, id);
      }
    }
  }

  /** `_collect_statuses`, listing by listing: a failed one neither states nor completes anything. */
  method CollectStatuses(answers: seq<Answer>) returns (statuses: Cache, scopes: set<nat>)
    ensures statuses == StatusesOf(answers)
    ensures scopes == ScopesOf(answers)
  {
    statuses, scopes := map[], {};
    for i := 0 to |answers|
      invariant statuses == StatusesOf(answers[..i])
      invariant scopes == ScopesOf(answers[..i])
    {
      assert answers[..i + 1][..i] == answers[..i] && answers[..i + 1][i] == answers[i];
      assert ScopesOf(answers[..i + 1])
             == ScopesOf(answers[..i]) + (if answers[i].rows.Some? then {answers[i].scope} else {}) by {
        ScopesGrow(answers, i);
      }
      if answers[i].rows.None? {
        continue;
      }
      ghost var before := statuses;
      var rows := answers[i].rows.value;
      for j := 0 to |rows|
        invariant statuses == WithRows(before, rows[..j])
      {
        assert rows[..j + 1][..j] == rows[..j];
        if rows[j].Unusable? {
          continue;
        }
        statuses := statuses[rows[j].instrument := rows[j].action];
      }
      assert rows[..|rows|] == rows;
      scopes := scopes + {answers[i].scope};
    }
    assert answers[..|answers|] == answers;
  }

  lemma ScopesGrow(answers: seq<Answer>, i: nat)
    requires i < |answers|
    ensures ScopesOf(answers[..i + 1])
            == ScopesOf(answers[..i]) + (if answers[i].rows.Some? then {answers[i].scope} else {})
  {
    forall s ensures s in ScopesOf(answers[..i + 1])
      <==> s in ScopesOf(answers[..i]) || (answers[i].rows.Some? && s == answers[i].scope)
    {
      if s in ScopesOf(answers[..i]) {
        var k :| 0 <= k < i && answers[..i][k].rows.Some? && answers[..i][k].scope == s;
        assert answers[..i + 1][k] == answers[..i][k];
      }
      if answers[i].rows.Some? && s == answers[i].scope {
        assert answers[..i + 1][i] == answers[i];
      }
    }
  }

  // -- the diff ----------------------------------------------------------

  /** The tracked state after a round: what was listed, and absence where the listing was read. */
  function AfterDiff(cache: Cache, statuses: Cache, removable: nat -> bool): Cache {
    map id | id in cache.Keys + statuses.Keys ::
      if id in statuses then statuses[id] else if removable(id) then NotAvailable else cache[id]
  }

  /** The tracked state between turns of the first loop, and of the second. */
  ghost function AfterListed(first: Cache, statuses: Cache, done: set<nat>): Cache
    requires done <= statuses.Keys
  {
    map id | id in first.Keys + done :: if id in done then statuses[id] else first[id]
  }

  ghost function AfterRemoved(first: Cache, statuses: Cache, removable: nat -> bool, done: set<nat>): Cache {
    map id | id in first.Keys + statuses.Keys ::
      if id in statuses then statuses[id] else if id in done && removable(id) then NotAvailable else first[id]
  }

  lemma ListedTurn(first: Cache, statuses: Cache, done: set<nat>, id: nat)
    requires done <= statuses.Keys && id in statuses && id !in done
    ensures AfterListed(first, statuses, done)[id := statuses[id]] == AfterListed(first, statuses, done + {id})
    ensures id in AfterListed(first, statuses, done) <==> id in first
    ensures id in first ==> AfterListed(first, statuses, done)[id] == first[id]
  {
    SameMap(AfterListed(first, statuses, done)[id := statuses[id]], AfterListed(first, statuses, done + {id}));
  }

  lemma RemovedTurn(first: Cache, statuses: Cache, removable: nat -> bool, done: set<nat>, id: nat)
    requires id in first && id !in statuses && id !in done
    ensures AfterRemoved(first, statuses, removable, done)[id] == first[id]
    ensures var now := AfterRemoved(first, statuses, removable, done);
      AfterRemoved(first, statuses, removable, done + {id}) ==
      if first[id] == NotAvailable || !removable(id) then now else now[id := NotAvailable]
  {
    var now := AfterRemoved(first, statuses, removable, done);
    SameMap(AfterRemoved(first, statuses, removable, done + {id}),
            if first[id] == NotAvailable || !removable(id) then now else now[id := NotAvailable]);
  }

  /** Handling one more of a set of names. */
  lemma OneTurn(names: set<nat>, todo: set<nat>, id: nat)
    requires id in todo && todo <= names
    ensures id !in names - todo && todo - {id} <= names
    ensures names - (todo - {id}) == (names - todo) + {id}
  {
  }

  /** Where the second loop starts, and where it ends. */
  lemma RemovedBounds(first: Cache, statuses: Cache, removable: nat -> bool)
    ensures AfterRemoved(first, statuses, removable, statuses.Keys).Keys - statuses.Keys == first.Keys - statuses.Keys
    ensures (first.Keys + statuses.Keys) - (first.Keys - statuses.Keys) == statuses.Keys
    ensures (first.Keys + statuses.Keys) - {} == first.Keys + statuses.Keys
  {
  }

  lemma LoopBounds(first: Cache, statuses: Cache, removable: nat -> bool)
    ensures AfterListed(first, statuses, {}) == first
    ensures AfterListed(first, statuses, statuses.Keys) == AfterRemoved(first, statuses, removable, statuses.Keys)
    ensures AfterRemoved(first, statuses, removable, first.Keys + statuses.Keys)
            == AfterDiff(first, statuses, removable)
    ensures AfterDiff(first, statuses, removable).Keys == first.Keys + statuses.Keys
  {
    SameMap(AfterListed(first, statuses, {}), first);
    SameMap(AfterListed(first, statuses, statuses.Keys), AfterRemoved(first, statuses, removable, statuses.Keys));
    SameMap(AfterRemoved(first, statuses, removable, first.Keys + statuses.Keys),
            AfterDiff(first, statuses, removable));
  }

  predicate Differs(before: Cache, after: Cache, id: nat) {
    id in after && (id !in before || before[id] != after[id])
  }

  predicate Wanted(subscriptions: Option<set<nat>>, id: nat) {
    subscriptions.None? || id in subscriptions.value
  }

  predicate Reported(emitted: seq<Emission>, id: nat) {
    exists i :: 0 <= i < |emitted| && emitted[i].instrument == id
  }

  ghost predicate Once(emitted: seq<Emission>) {
    forall i, j :: 0 <= i < j < |emitted| ==> emitted[i].instrument != emitted[j].instrument
  }

  /** Emissions carry the action now tracked, and a removal's reason if nothing listed the instrument. */
  ghost predicate Truthful(emitted: seq<Emission>, after: Cache, statuses: Cache, touched: set<nat>) {
    forall e :: e in emitted ==>
      e.instrument in touched && e.instrument in after && e.action == after[e.instrument]
      && (e.removed <==> e.instrument !in statuses)
  }

  ghost predicate Exact(emitted: seq<Emission>, before: Cache, after: Cache, subscriptions: Option<set<nat>>,
                        touched: set<nat>) {
    forall id :: id in touched ==> (Reported(emitted, id) <==> Wanted(subscriptions, id) && Differs(before, after, id))
  }

  /**
    Of the instruments touched, exactly those that changed and are wanted are emitted, once
    each, with the action now tracked and with the reason of a removal if they were not listed.
  */
  ghost predicate Announces(emitted: seq<Emission>, before: Cache, after: Cache, statuses: Cache,
                            subscriptions: Option<set<nat>>, touched: set<nat>) {
    && Once(emitted) && Truthful(emitted, after, statuses, touched)
    && Exact(emitted, before, after, subscriptions, touched)
  }

  function Emitted(subscriptions: Option<set<nat>>, id: nat, action: Action, removed: bool): seq<Emission> {
    if Wanted(subscriptions, id) then [Emission(id, action, removed)] else []
  }

  /** What handling one listed or removed instrument emits. */
  function Announcement(now: Cache, statuses: Cache, subscriptions: Option<set<nat>>, id: nat,
                        action: Action): seq<Emission> {
    if id in now && now[id] == action then [] else Emitted(subscriptions, id, action, id !in statuses)
  }

  lemma ReportedAppend(emitted: seq<Emission>, more: seq<Emission>, id: nat)
    ensures Reported(emitted + more, id) <==> Reported(emitted, id) || Reported(more, id)
  {
    var all := emitted + more;
    if Reported(emitted, id) {
      var i :| 0 <= i < |emitted| && emitted[i].instrument == id;
      assert all[i] == emitted[i];
    }
    if Reported(more, id) {
      var i :| 0 <= i < |more| && more[i].instrument == id;
      assert all[|emitted| + i] == more[i];
    }
  }

  lemma OnceAppend(emitted: seq<Emission>, more: seq<Emission>, touched: set<nat>, id: nat)
    requires Once(emitted) && id !in touched && forall e :: e in emitted ==> e.instrument in touched
    requires |more| <= 1 && forall e :: e in more ==> e.instrument == id
    ensures Once(emitted + more)
  {
    if more != [] {
      assert more[0] in more;
      forall i | 0 <= i < |emitted| ensures emitted[i].instrument != more[0].instrument {
        assert emitted[i] in emitted;
      }
    }
  }

  lemma ExactAppend(emitted: seq<Emission>, before: Cache, now: Cache, statuses: Cache,
                    subscriptions: Option<set<nat>>, touched: set<nat>, id: nat, action: Action)
    requires Exact(emitted, before, now, subscriptions, touched) && !Reported(emitted, id) && id !in touched
    requires (id in now <==> id in before) && (id in now ==> now[id] == before[id])
    ensures Exact(emitted + Announcement(now, statuses, subscriptions, id, action), before, now[id := action],
                  subscriptions, touched + {id})
  {
    var more := Announcement(now, statuses, subscriptions, id, action);
    forall k | k in touched + {id}
      ensures Reported(emitted + more, k) <==> Wanted(subscriptions, k) && Differs(before, now[id := action], k)
    {
      ReportedAppend(emitted, more, k);
      if k == id && more != [] {
        assert more[0].instrument == id;
      }
      if k != id {
        assert Reported(emitted, k) <==> Wanted(subscriptions, k) && Differs(before, now, k);
      }
    }
  }

  lemma NotReported(emitted: seq<Emission>, touched: set<nat>, id: nat)
    requires id !in touched && forall e :: e in emitted ==> e.instrument in touched
    ensures !Reported(emitted, id)
  {
    forall i | 0 <= i < |emitted| ensures emitted[i].instrument != id {
      assert emitted[i] in emitted;
    }
  }

  /** One more instrument handled. */
  lemma AnnounceOne(emitted: seq<Emission>, before: Cache, now: Cache, statuses: Cache,
                    subscriptions: Option<set<nat>>, touched: set<nat>, id: nat, action: Action)
    requires Announces(emitted, before, now, statuses, subscriptions, touched) && id !in touched
    requires (id in now <==> id in before) && (id in now ==> now[id] == before[id])
    ensures Announces(emitted + Announcement(now, statuses, subscriptions, id, action),
                      before, now[id := action], statuses, subscriptions, touched + {id})
  {
    NotReported(emitted, touched, id);
    ExactAppend(emitted, before, now, statuses, subscriptions, touched, id, action);
    OnceAppend(emitted, Announcement(now, statuses, subscriptions, id, action), touched, id);
  }

  /** An instrument left as it is. */
  lemma AnnounceNone(emitted: seq<Emission>, before: Cache, now: Cache, statuses: Cache,
                     subscriptions: Option<set<nat>>, touched: set<nat>, id: nat)
    requires Announces(emitted, before, now, statuses, subscriptions, touched)
    requires id !in touched && id in now && id in before && now[id] == before[id]
    ensures Announces(emitted, before, now, statuses, subscriptions, touched + {id})
  {
    AnnounceOne(emitted, before, now, statuses, subscriptions, touched, id, now[id]);
    assert now[id := now[id]] == now && emitted + [] == emitted;
  }

  // -- the client as a step machine --------------------------------------

  datatype State = State(subs: set<nat>, cache: Cache, out: seq<Emission>)

  const INITIAL := State({}, map[], [])

  /** Steps end where the client awaits. */
  datatype Event =
    | Subscribe(id: nat)
    | SubscribeFetched(id: nat, action: Option<Action>)
    | Unsubscribe(id: nat)
    | PollAnswered(answers: seq<Answer>)

  function Removable(answers: seq<Answer>, scopeOf: nat -> nat): nat -> bool {
    (id: nat) => scopeOf(id) in ScopesOf(answers)
  }

  ghost predicate Next(s: State, e: Event, s': State, scopeOf: nat -> nat) {
    match e
    case Subscribe(id) =>
      s' == State(s.subs + {id}, s.cache, if id in s.cache then s.out + [Emission(id, s.cache[id], false)] else s.out)
    case SubscribeFetched(id, action) =>
      s' == if action.None? then s
            else State(s.subs, s.cache[id := action.value], s.out + [Emission(id, action.value, false)])
    case Unsubscribe(id) => s' == s.(subs := s.subs - {id})
    case PollAnswered(answers) =>
      if ScopesOf(answers) == {} then s' == s else
      && s'.subs == s.subs
      && s'.cache == AfterDiff(s.cache, StatusesOf(answers), Removable(answers, scopeOf))
      && s.out <= s'.out
      && Announces(s'.out[|s.out|..], s.cache, s'.cache, StatusesOf(answers), Some(s.subs), s'.cache.Keys)
  }

  ghost predicate IsRun(states: seq<State>, events: seq<Event>, scopeOf: nat -> nat) {
    && |states| == |events| + 1 && states[0] == INITIAL
    && forall i :: 0 <= i < |events| ==> Next(states[i], events[i], states[i + 1], scopeOf)
  }

  function LastEmitted(out: seq<Emission>, id: nat): Option<Action> {
    if out == [] then None
    else if out[|out| - 1].instrument == id then Some(out[|out| - 1].action)
    else LastEmitted(out[..|out| - 1], id)
  }

  /** Every subscriber of a tracked instrument was last told its tracked action. */
  ghost predicate Informed(s: State) {
    forall id :: id in s.subs && id in s.cache ==> LastEmitted(s.out, id) == Some(s.cache[id])
  }

  lemma {:induction false} LastOfAppend(out: seq<Emission>, emitted: seq<Emission>, after: Cache, id: nat)
    requires forall i :: 0 <= i < |emitted| ==>
             emitted[i].instrument in after && emitted[i].action == after[emitted[i].instrument]
    ensures Reported(emitted, id) ==> id in after && LastEmitted(out + emitted, id) == Some(after[id])
    ensures !Reported(emitted, id) ==> LastEmitted(out + emitted, id) == LastEmitted(out, id)
    decreases |emitted|
  {
    if emitted == [] {
      assert out + emitted == out;
    } else {
      var before, last := emitted[..|emitted| - 1], |emitted| - 1;
      assert (out + emitted)[..|out + emitted| - 1] == out + before;
      LastOfAppend(out, before, after, id);
      if emitted[last].instrument != id && Reported(emitted, id) {
        var i :| 0 <= i < |emitted| && emitted[i].instrument == id;
        assert before[i] == emitted[i];
      }
      if Reported(before, id) {
        var i :| 0 <= i < |before| && before[i].instrument == id;
        assert emitted[i] == before[i];
      }
    }
  }

  lemma PollKeepsInformed(s: State, answers: seq<Answer>, s': State, scopeOf: nat -> nat)
    requires Informed(s) && Next(s, PollAnswered(answers), s', scopeOf)
    ensures Informed(s')
  {
    if ScopesOf(answers) != {} {
      var emitted := s'.out[|s.out|..];
      assert s'.out == s.out + emitted;
      forall id | id in s'.subs && id in s'.cache ensures LastEmitted(s'.out, id) == Some(s'.cache[id]) {
        LastOfAppend(s.out, emitted, s'.cache, id);
        assert Reported(emitted, id) <==> Wanted(Some(s.subs), id) && Differs(s.cache, s'.cache, id);
      }
    }
  }

  lemma StepKeepsInformed(s: State, e: Event, s': State, scopeOf: nat -> nat)
    requires Informed(s) && Next(s, e, s', scopeOf)
    ensures Informed(s')
  {
    if e.PollAnswered? {
      PollKeepsInformed(s, e.answers, s', scopeOf);
    } else if s'.out != s.out {
      assert s'.out[..|s'.out| - 1] == s.out;
    }
  }

  /** Over every run, whatever listings fail and whatever interleaves with a poll or a fetch. */
  lemma {:induction false} InformedOverRuns(states: seq<State>, events: seq<Event>, scopeOf: nat -> nat)
    requires IsRun(states, events, scopeOf)
    ensures Informed(states[|events|])
    decreases |events|
  {
    if events != [] {
      var n := |events| - 1;
      InformedOverRuns(states[..|states| - 1], events[..n], scopeOf);
      StepKeepsInformed(states[n], events[n], states[n + 1], scopeOf);
    }
  }

  /**
    A poll reports an instrument as removed exactly when it is subscribed, was tracked as
    available, and its own listing was read while no listing read this round names it.
  */
  lemma RemovedIffReadAndAbsent(s: State, answers: seq<Answer>, s': State, scopeOf: nat -> nat, id: nat)
    requires Next(s, PollAnswered(answers), s', scopeOf)
    ensures (exists i :: |s.out| <= i < |s'.out| && s'.out[i].instrument == id && s'.out[i].removed)
       <==> (id in s.subs && id in s.cache && s.cache[id] != NotAvailable
             && scopeOf(id) in ScopesOf(answers) && !ListedIn(answers, id))
  {
    StatusesMember(answers, id);
    var emitted := s'.out[|s.out|..];
    if exists i :: |s.out| <= i < |s'.out| && s'.out[i].instrument == id && s'.out[i].removed {
      var i :| |s.out| <= i < |s'.out| && s'.out[i].instrument == id && s'.out[i].removed;
      assert emitted[i - |s.out|] == s'.out[i];
      assert Reported(emitted, id);
    }
    if && id in s.subs && id in s.cache && s.cache[id] != NotAvailable
       && scopeOf(id) in ScopesOf(answers) && !ListedIn(answers, id)
    {
      assert Differs(s.cache, s'.cache, id) && Reported(emitted, id);
      var k :| 0 <= k < |emitted| && emitted[k].instrument == id;
      assert s'.out[|s.out| + k] == emitted[k];
    }
  }

  /** So a listing that is answered without a row reports every available instrument of its scope as removed. */
  lemma EmptyListingRemovesAll(s: State, scope: nat, s': State, scopeOf: nat -> nat, id: nat)
    requires Next(s, PollAnswered([Answer(scope, Some([]))]), s', scopeOf)
    ensures (exists i :: |s.out| <= i < |s'.out| && s'.out[i].instrument == id && s'.out[i].removed)
       <==> id in s.subs && id in s.cache && s.cache[id] != NotAvailable && scopeOf(id) == scope
  {
    var answers := [Answer(scope, Some([]))];
    RemovedIffReadAndAbsent(s, answers, s', scopeOf, id);
    assert answers[0].scope in ScopesOf(answers);
    assert !ListedIn(answers, id);
  }

  /**
    What a poll makes of an instrument: the action of its last row if a listing read names it, absent
    if only its own listing was read, and otherwise what it was. A subscriber is told exactly if that
    is a change, and told the action now tracked.
  */
  lemma PollTracks(s: State, answers: seq<Answer>, s': State, scopeOf: nat -> nat, id: nat)
    requires Next(s, PollAnswered(answers), s', scopeOf)
    ensures var listed := LastListed(answers, id);
            && s'.subs == s.subs && s.out <= s'.out
            && (listed.Some? ==> id in s'.cache && s'.cache[id] == listed.value)
            && (listed.None? ==> (id in s'.cache <==> id in s.cache))
            && (listed.None? && id in s.cache ==>
                  s'.cache[id] == if scopeOf(id) in ScopesOf(answers) then NotAvailable else s.cache[id])
    ensures Reported(s'.out[|s.out|..], id) <==>
            id in s.subs && id in s'.cache && (id in s.cache ==> s.cache[id] != s'.cache[id])
    ensures forall e <- s'.out[|s.out|..] :: e.instrument == id ==> id in s'.cache && e.action == s'.cache[id]
  {
    LastRowWins(answers, id);
    if ScopesOf(answers) == {} {
      assert s'.out[|s.out|..] == [];
      ReadScopes(answers);
      NothingReadNothingListed(answers, id);
    } else {
      assert Announces(s'.out[|s.out|..], s.cache, s'.cache, StatusesOf(answers), Some(s.subs), s'.cache.Keys);
      if id !in s'.cache {
        NotReported(s'.out[|s.out|..], s'.cache.Keys, id);
      }
    }
  }

  /** The scopes read are those of the listings that were answered. */
  lemma ReadScopes(answers: seq<Answer>)
    ensures forall s <- ScopesOf(answers) ::
              exists i :: 0 <= i < |answers| && answers[i].rows.Some? && answers[i].scope == s
    ensures forall i :: 0 <= i < |answers| && answers[i].rows.Some? ==> answers[i].scope in ScopesOf(answers)
  {
  }

  lemma {:induction false} NothingReadNothingListed(answers: seq<Answer>, id: nat)
    requires forall i :: 0 <= i < |answers| ==> answers[i].rows.None?
    ensures LastListed(answers, id).None?
    decreases |answers|
  {
    if answers != [] {
      NothingReadNothingListed(answers[..|answers| - 1], id);
    }
  }

  lemma NotReportedIsEmpty(emitted: seq<Emission>, touched: set<nat>)
    requires forall e :: e in emitted ==> e.instrument in touched
    requires forall id :: id in touched ==> !Reported(emitted, id)
    ensures emitted == []
  {
    if emitted != [] {
      HeadIsReported(emitted);
    }
  }

  lemma HeadIsReported(emitted: seq<Emission>)
    requires emitted != []
    ensures emitted[0] in emitted && Reported(emitted, emitted[0].instrument)
  {
  }

  /** The same answers again change nothing and emit nothing. */
  lemma RepeatedPollIsSilent(s: State, answers: seq<Answer>, s': State, s'': State, scopeOf: nat -> nat)
    requires Next(s, PollAnswered(answers), s', scopeOf)
    requires Next(s', PollAnswered(answers), s'', scopeOf)
    ensures s'' == s'
  {
    if ScopesOf(answers) != {} {
      var removable := Removable(answers, scopeOf);
      SameMap(AfterDiff(s'.cache, StatusesOf(answers), removable), s'.cache);
      var emitted := s''.out[|s'.out|..];
      NotReportedIsEmpty(emitted, s''.cache.Keys);
      assert s''.out == s'.out + emitted;
    }
  }

  // -- the client --------------------------------------------------------

  class StatusClient {
    var subs: set<nat>
    var cache: Cache
    var out: seq<Emission>

    function View(): State
      reads this
    {
      State(subs, cache, out)
    }

    constructor ()
      ensures View() == INITIAL
    {
      subs, cache, out := {}, map[], [];
    }

    method Emit(subscriptions: Option<set<nat>>, id: nat, action: Action, removed: bool)
      modifies this`out
      ensures out == old(out) + Emitted(subscriptions, id, action, removed)
    {
      if subscriptions.None? || id in subscriptions.value {
        out := out + [Emission(id, action, removed)];
      }
    }

    /** One turn of either loop: the action is tracked, and emitted if it changed and is wanted. */
    method Track(id: nat, action: Action, statuses: Cache, subscriptions: Option<set<nat>>,
                 ghost first: Cache, ghost start: nat, ghost touched: set<nat>)
      requires start <= |out| && id !in touched
      requires Announces(out[start..], first, cache, statuses, subscriptions, touched)
      requires (id in cache <==> id in first) && (id in cache ==> cache[id] == first[id])
      modifies this`cache, this`out
      ensures cache == old(cache)[id := action] && old(out) <= out
      ensures Announces(out[start..], first, cache, statuses, subscriptions, touched + {id})
    {
      ghost var emitted := out[start..];
      AnnounceOne(emitted, first, cache, statuses, subscriptions, touched, id, action);
      var same := id in cache && cache[id] == action;
      cache := cache[id := action];
      if !same {
        Emit(subscriptions, id, action, id !in statuses);
      }
      assert out[start..] == emitted + Announcement(old(cache), statuses, subscriptions, id, action);
    }

    /** The first loop of `diff_and_emit_statuses`: what the listings state. */
    method EmitListed(statuses: Cache, subscriptions: Option<set<nat>>, ghost first: Cache, ghost start: nat)
      requires cache == AfterListed(first, statuses, {}) && start <= |out|
      requires Announces(out[start..], first, cache, statuses, subscriptions, {})
      modifies this`cache, this`out
      ensures cache == AfterListed(first, statuses, statuses.Keys)
      ensures old(out) <= out
      ensures Announces(out[start..], first, cache, statuses, subscriptions, statuses.Keys)
    {
      var todo := statuses.Keys;
      assert statuses.Keys - todo == {};
      while todo != {}
        invariant todo <= statuses.Keys
        invariant cache == AfterListed(first, statuses, statuses.Keys - todo)
        invariant old(out) <= out
        invariant Announces(out[start..], first, cache, statuses, subscriptions, statuses.Keys - todo)
        decreases |todo|
      {
        ghost var w := Pick(todo);
        var id :| id in todo;
        OneTurn(statuses.Keys, todo, id);
        ListedTurn(first, statuses, statuses.Keys - todo, id);
        Track(id, statuses[id], statuses, subscriptions, first, start, statuses.Keys - todo);
        todo := todo - {id};
      }
      assert statuses.Keys - todo == statuses.Keys;
    }

    /** The second loop: what is missing from the listings that were read. */
    method EmitRemoved(statuses: Cache, subscriptions: Option<set<nat>>, removable: nat -> bool, ghost first: Cache,
                       ghost start: nat)
      requires cache == AfterRemoved(first, statuses, removable, statuses.Keys) && start <= |out|
      requires Announces(out[start..], first, cache, statuses, subscriptions, statuses.Keys)
      modifies this`cache, this`out
      ensures cache == AfterRemoved(first, statuses, removable, first.Keys + statuses.Keys)
      ensures old(out) <= out
      ensures Announces(out[start..], first, cache, statuses, subscriptions, first.Keys + statuses.Keys)
    {
      var todo := cache.Keys - statuses.Keys;
      ghost var names := first.Keys + statuses.Keys;
      RemovedBounds(first, statuses, removable);
      while todo != {}
        invariant todo <= first.Keys - statuses.Keys
        invariant cache == AfterRemoved(first, statuses, removable, names - todo)
        invariant old(out) <= out
        invariant Announces(out[start..], first, cache, statuses, subscriptions, names - todo)
        decreases |todo|
      {
        ghost var w := Pick(todo);
        var id :| id in todo;
        OneTurn(names, todo, id);
        RemovedTurn(first, statuses, removable, names - todo, id);
        if cache[id] == NotAvailable || !removable(id) {
          AnnounceNone(out[start..], first, cache, statuses, subscriptions, names - todo, id);
        } else {
          Track(id, NotAvailable, statuses, subscriptions, first, start, names - todo);
        }
        todo := todo - {id};
      }
    }

    /** `diff_and_emit_statuses`. */
    method DiffAndEmit(statuses: Cache, subscriptions: Option<set<nat>>, removable: nat -> bool)
      modifies this`cache, this`out
      ensures cache == AfterDiff(old(cache), statuses, removable)
      ensures old(out) <= out
      ensures Announces(out[|old(out)|..], old(cache), cache, statuses, subscriptions, cache.Keys)
    {
      ghost var first, start := cache, |out|;
      LoopBounds(first, statuses, removable);
      EmitListed(statuses, subscriptions, first, start);
      EmitRemoved(statuses, subscriptions, removable, first, start);
    }

    /** `_poll_instrument_statuses` from the moment the last listing answered. */
    method PollAnswers(answers: seq<Answer>, scopeOf: nat -> nat)
      modifies this`cache, this`out
      ensures Next(old(View()), PollAnswered(answers), View(), scopeOf)
    {
      var statuses, scopes := CollectStatuses(answers);
      if scopes == {} {
        return;
      }
      DiffAndEmit(statuses, Some(subs), Removable(answers, scopeOf));
    }

    /** `_subscribe_instrument_status` up to its fetch; `fetch` asks for one. */
    method SubscribeStatus(id: nat, ghost scopeOf: nat -> nat) returns (fetch: bool)
      modifies this
      ensures Next(old(View()), Subscribe(id), View(), scopeOf)
      ensures fetch == (id !in old(cache)) && id in subs
      ensures !fetch ==> out == old(out) + [Emission(id, old(cache)[id], false)]
    {
      subs := subs + {id};
      fetch := id !in cache;
      if !fetch {
        out := out + [Emission(id, cache[id], false)];
      }
    }

    /** ... and behind it. */
    method StatusFetched(id: nat, action: Option<Action>, ghost scopeOf: nat -> nat)
      modifies this
      ensures Next(old(View()), SubscribeFetched(id, action), View(), scopeOf)
      ensures action.Some? ==>
                id in cache && cache[id] == action.value && out == old(out) + [Emission(id, cache[id], false)]
    {
      if action.Some? {
        cache := cache[id := action.value];
        out := out + [Emission(id, action.value, false)];
      }
    }

    method UnsubscribeStatus(id: nat, ghost scopeOf: nat -> nat)
      modifies this
      ensures Next(old(View()), Unsubscribe(id), View(), scopeOf)
      ensures id !in subs && subs + {id} == old(subs) + {id} && cache == old(cache) && out == old(out)
    {
      subs := subs - {id};
    }
  }
}
