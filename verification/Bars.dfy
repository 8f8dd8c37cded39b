/**
  The pending-bar publisher of gateio_nt/data.py, for one bar type. Candles of one bucket
  arrive again and again as it fills; a bar goes out when its closing candle arrives, when a
  newer bucket starts, or when the clock passes the bucket's close by a grace period.
*/
module Bars {
  import opened Basics

  const NANOS_PER_SEC := 1_000_000_000
  const GRACE_NANOS := 5_000_000_000

  /** The bar of one bucket; `flushAt` is zero when the interval has no known length. */
  datatype Pending = Pending(open: int, bar: int, flushAt: int)

  datatype Published = Published(open: int, bar: int)

  datatype State = State(pending: Option<Pending>, last: int, out: seq<Published>)

  const INITIAL := State(None, -1, [])

  /** A candle message, or the clock alone. An unusable candle builds no bar. */
  datatype Event =
    | Candle(open: int, bar: Option<int>, closes: bool, now: int)
    | Tick(now: int)

  /** `_publish_bar`: each bucket once, never backwards. */
  function PublishBar(s: State, open: int, bar: int): State {
    if s.last >= open then s
    else State(None, open, s.out + [Published(open, bar)])
  }

  /** `_flush_pending_bars`, for this bar type. */
  function Flush(s: State, now: int): State {
    if s.pending.None? || s.pending.value.flushAt == 0 || now < s.pending.value.flushAt then s
    else PublishBar(s, s.pending.value.open, s.pending.value.bar)
  }

  function FlushAt(open: int, stepMs: int): int {
    if stepMs > 0 then open * NANOS_PER_SEC + stepMs * 1_000_000 + GRACE_NANOS else 0
  }

  /** A newer bucket closes the pending one. */
  function CloseOlder(s: State, open: int): State {
    if s.pending.Some? && s.pending.value.open < open
    then PublishBar(s, s.pending.value.open, s.pending.value.bar) else s
  }

  /** `_handle_candlestick`. */
  function OnCandle(s: State, open: int, bar: int, closes: bool, now: int, stepMs: int): State {
    var s1 := CloseOlder(s, open);
    if closes then PublishBar(s1, open, bar)
    else Flush(s1.(pending := Some(Pending(open, bar, FlushAt(open, stepMs)))), now)
  }

  function Step(s: State, e: Event, stepMs: int): State {
    match e
    case Candle(open, bar, closes, now) =>
      if bar.None? then s else OnCandle(s, open, bar.value, closes, now, stepMs)
    case Tick(now) => Flush(s, now)
  }

  function Run(events: seq<Event>, stepMs: int): State {
    if events == [] then INITIAL
    else Step(Run(events[..|events| - 1], stepMs), events[|events| - 1], stepMs)
  }

  // -- reference ---------------------------------------------------------

  /** The last valid candle of a bucket. */
  function LastCandle(events: seq<Event>, open: int): Option<int> {
    if events == [] then None else
    var e := events[|events| - 1];
    if e.Candle? && e.open == open && e.bar.Some? then e.bar else LastCandle(events[..|events| - 1], open)
  }

  predicate IsPublished(out: seq<Published>, open: int) {
    exists i :: 0 <= i < |out| && out[i].open == open
  }

  ghost predicate StrictlyIncreasing(out: seq<Published>) {
    forall i, j :: 0 <= i < j < |out| ==> out[i].open < out[j].open
  }

  /** Valid candles arrive with non-decreasing open times, none before the epoch. */
  ghost predicate InOrder(events: seq<Event>) {
    && (forall i :: 0 <= i < |events| && ValidCandle(events[i]) ==> events[i].open >= 0)
    && (forall i, j :: 0 <= i < j < |events| && ValidCandle(events[i]) && ValidCandle(events[j]) ==>
          events[i].open <= events[j].open)
  }

  predicate ValidCandle(e: Event) {
    e.Candle? && e.bar.Some?
  }

  // -- order and uniqueness, for every stream ----------------------------

  ghost predicate Ordered(s: State) {
    && StrictlyIncreasing(s.out)
    && (forall i :: 0 <= i < |s.out| ==> s.out[i].open <= s.last)
  }

  /** For every stream whatsoever, published open times strictly increase: no bucket goes out twice. */
  lemma {:induction false} PublishedInOrder(events: seq<Event>, stepMs: int)
    ensures Ordered(Run(events, stepMs))
    decreases |events|
  {
    if events != [] {
      PublishedInOrder(events[..|events| - 1], stepMs);
    }
  }

  // -- what is published, for every stream -------------------------------

  /** The handlers know no bucket but those that had a valid candle; a live pending bar is the last of its own. */
  ghost predicate Sound(s: State, events: seq<Event>) {
    && (forall i :: 0 <= i < |s.out| ==> LastCandle(events, s.out[i].open).Some?)
    && (s.pending.Some? ==> LastCandle(events, s.pending.value.open).Some?)
    && (s.pending.Some? && s.pending.value.open > s.last ==>
          LastCandle(events, s.pending.value.open) == Some(s.pending.value.bar))
  }

  lemma NextCandle(before: seq<Event>, e: Event, open: int)
    ensures LastCandle(before + [e], open) ==
            if ValidCandle(e) && e.open == open then e.bar else LastCandle(before, open)
  {
    assert (before + [e])[..|before|] == before;
  }

  lemma RunStep(before: seq<Event>, e: Event, stepMs: int)
    ensures Run(before + [e], stepMs) == Step(Run(before, stepMs), e, stepMs)
  {
    assert (before + [e])[..|before|] == before;
  }

  /** A step adds bars that are, each, the last valid candle of its bucket seen by then. */
  lemma StepStaysSound(s: State, before: seq<Event>, e: Event, stepMs: int)
    requires Sound(s, before)
    ensures var s' := Step(s, e, stepMs);
            && Sound(s', before + [e]) && s.out <= s'.out
            && forall i :: |s.out| <= i < |s'.out| ==> LastCandle(before + [e], s'.out[i].open) == Some(s'.out[i].bar)
  {
    forall open
      ensures LastCandle(before + [e], open) ==
              if ValidCandle(e) && e.open == open then e.bar else LastCandle(before, open)
    {
      NextCandle(before, e, open);
    }
  }

  lemma {:induction false} SoundOverRuns(events: seq<Event>, stepMs: int)
    ensures Sound(Run(events, stepMs), events)
    decreases |events|
  {
    if events != [] {
      var before, e := events[..|events| - 1], events[|events| - 1];
      SoundOverRuns(before, stepMs);
      StepStaysSound(Run(before, stepMs), before, e, stepMs);
      assert events == before + [e];
    }
  }

  /** For every stream, what a step publishes is the last valid candle of its bucket seen before that moment. */
  lemma PublishedBarIsLastCandle(before: seq<Event>, e: Event, stepMs: int)
    ensures var s, s' := Run(before, stepMs), Run(before + [e], stepMs);
            && s.out <= s'.out
            && forall i :: |s.out| <= i < |s'.out| ==>
                 LastCandle(before + [e], s'.out[i].open) == Some(s'.out[i].bar)
  {
    SoundOverRuns(before, stepMs);
    StepStaysSound(Run(before, stepMs), before, e, stepMs);
    RunStep(before, e, stepMs);
  }

  // -- when a bar goes out, for every stream -----------------------------

  /** The clock has passed the bucket's close, of known length, by five seconds. */
  predicate ClockClosed(open: int, stepMs: int, now: int) {
    stepMs > 0 && now >= open * 1_000_000_000 + stepMs * 1_000_000 + 5_000_000_000
  }

  /** The pending bar carries the moment its bucket may be flushed. */
  ghost predicate WellTimed(s: State, stepMs: int) {
    && s.last >= -1
    && (s.pending.Some? && s.pending.value.open > s.last ==>
          forall now :: WouldFlush(s.pending.value, now) <==> ClockClosed(s.pending.value.open, stepMs, now))
  }

  predicate WouldFlush(pending: Pending, now: int) {
    pending.flushAt != 0 && now >= pending.flushAt
  }

  lemma {:induction false} WellTimedOverRuns(events: seq<Event>, stepMs: int)
    ensures WellTimed(Run(events, stepMs), stepMs)
    decreases |events|
  {
    if events != [] {
      WellTimedOverRuns(events[..|events| - 1], stepMs);
    }
  }

  /** What may put a bucket out: its closing candle, a candle of a newer bucket, or the clock. */
  predicate MayPublish(e: Event, stepMs: int, open: int) {
    || (ValidCandle(e) && e.closes && open == e.open)
    || (ValidCandle(e) && open < e.open)
    || ((e.Candle? ==> ValidCandle(e) && !e.closes) && ClockClosed(open, stepMs, e.now))
  }

  /** For every stream: no bar goes out before its bucket is over. */
  lemma PublishedOnlyWhenOver(before: seq<Event>, e: Event, stepMs: int)
    ensures var s, s' := Run(before, stepMs), Run(before + [e], stepMs);
            s.out <= s'.out
            && forall i :: |s.out| <= i < |s'.out| ==> MayPublish(e, stepMs, s'.out[i].open)
  {
    var s := Run(before, stepMs);
    WellTimedOverRuns(before, stepMs);
    RunStep(before, e, stepMs);
    if ValidCandle(e) && !e.closes {
      UnclosedPublishes(s, e, stepMs);
    }
  }

  /** An unclosed candle puts out the older pending bucket, and its own only if the clock has closed it. */
  lemma UnclosedPublishes(s: State, e: Event, stepMs: int)
    requires WellTimed(s, stepMs) && ValidCandle(e) && !e.closes
    ensures var s' := Step(s, e, stepMs);
            && s.out <= s'.out
            && (forall i :: |s.out| <= i < |s'.out| ==> MayPublish(e, stepMs, s'.out[i].open))
            && (e.open > s.last && ClockClosed(e.open, stepMs, e.now) ==>
                  s'.last == e.open && s'.out != [] && s'.out[|s'.out| - 1] == Published(e.open, e.bar.value))
            && (s'.pending.Some? && s'.pending.value.open > s'.last ==>
                  !ClockClosed(s'.pending.value.open, stepMs, e.now))
  {
    var s1 := CloseOlder(s, e.open);
    var pending := Pending(e.open, e.bar.value, FlushAt(e.open, stepMs));
    assert e.open > s.last ==> (WouldFlush(pending, e.now) <==> ClockClosed(e.open, stepMs, e.now));
    assert s1.last >= -1 && s.out <= s1.out;
    assert forall i :: |s.out| <= i < |s1.out| ==> s1.out[i].open < e.open;
  }

  /**
    Conversely, for every stream: the closing candle of a bucket newer than the last puts it out at
    once, and a candle of a newer bucket puts the pending one out.
  */
  lemma OverIsPublished(before: seq<Event>, e: Event, stepMs: int)
    requires ValidCandle(e)
    ensures var s, s' := Run(before, stepMs), Run(before + [e], stepMs);
            && (e.closes && e.open > s.last ==>
                  s'.out != [] && s'.out[|s'.out| - 1] == Published(e.open, e.bar.value))
            && (s.pending.Some? && s.last < s.pending.value.open < e.open ==>
                  |s.out| < |s'.out| && s'.out[|s.out|] == Published(s.pending.value.open, s.pending.value.bar))
  {
    RunStep(before, e, stepMs);
  }

  /** And behind every tick or unclosed candle no bucket that can still go out is one the clock has closed. */
  lemma ClockPublishes(before: seq<Event>, e: Event, stepMs: int)
    requires e.Candle? ==> ValidCandle(e) && !e.closes
    ensures var s, s' := Run(before, stepMs), Run(before + [e], stepMs);
            && (s'.pending.Some? && s'.pending.value.open > s'.last ==>
                  !ClockClosed(s'.pending.value.open, stepMs, e.now))
            && (e.Tick? && s.pending.Some? && s.pending.value.open > s.last
                && ClockClosed(s.pending.value.open, stepMs, e.now) ==>
                  s'.out == s.out + [Published(s.pending.value.open, s.pending.value.bar)])
  {
    var s := Run(before, stepMs);
    WellTimedOverRuns(before, stepMs);
    RunStep(before, e, stepMs);
    if e.Candle? {
      UnclosedPublishes(s, e, stepMs);
    } else if s.pending.Some? {
      assert s.pending.value.open > s.last ==>
               (WouldFlush(s.pending.value, e.now) <==> ClockClosed(s.pending.value.open, stepMs, e.now));
    }
  }

  // -- which candle loses a bucket, for every stream ---------------------

  /** The bucket is out, or is pending and can still go out. */
  predicate Live(s: State, open: int) {
    IsPublished(s.out, open) || (s.pending.Some? && s.pending.value.open == open && open > s.last)
  }

  /** A bucket that had a valid candle, is not out, and will not go out unless another candle of it arrives. */
  predicate Lost(s: State, events: seq<Event>, open: int) {
    LastCandle(events, open).Some? && !Live(s, open)
  }

  /**
    The candle that loses a bucket: the first one of a bucket no newer than the last published, or
    one of an older bucket that takes the place of the pending one. A closing candle takes it only
    if it is published itself.
  */
  predicate Loses(s: State, seen: bool, e: Event, open: int) {
    ValidCandle(e)
    && if e.open == open then !seen && open <= s.last
       else e.open < open && s.pending.Some? && s.pending.value.open == open && open > s.last
            && (!e.closes || e.open > s.last)
  }

  /** Publishing a bucket newer than the last makes it live; anything else publishing does keeps it so. */
  lemma PublishKeepsLive(s: State, open: int, bar: int, bucket: int)
    ensures open > s.last ==> IsPublished(PublishBar(s, open, bar).out, open)
    ensures IsPublished(s.out, bucket) ==> IsPublished(PublishBar(s, open, bar).out, bucket)
  {
    var s' := PublishBar(s, open, bar);
    if s' != s {
      assert s'.out[|s.out|].open == open;
      if IsPublished(s.out, bucket) {
        var i :| 0 <= i < |s.out| && s.out[i].open == bucket;
        assert s'.out[i].open == bucket;
      }
    }
  }

  /** The clock loses nothing. */
  lemma FlushKeepsLive(s: State, now: int, bucket: int)
    requires Ordered(s)
    ensures Live(s, bucket) ==> Live(Flush(s, now), bucket)
    ensures Live(Flush(s, now), bucket) ==> Live(s, bucket)
  {
    if s.pending.Some? {
      var s' := Flush(s, now);
      PublishKeepsLive(s, s.pending.value.open, s.pending.value.bar, bucket);
      if IsPublished(s'.out, bucket) && !IsPublished(s.out, bucket) {
        var i :| 0 <= i < |s'.out| && s'.out[i].open == bucket;
        assert i >= |s.out|;
      }
    }
  }

  /** Closing an older pending bucket loses nothing either. */
  lemma CloseOlderKeepsLive(s: State, open: int, bucket: int)
    requires Ordered(s)
    ensures var s1 := CloseOlder(s, open);
            && Ordered(s1) && (Live(s1, bucket) <==> Live(s, bucket))
            && (open <= s1.last <==> open <= s.last)
            && (s1.pending.Some? ==> s1.pending == s.pending && s1.last == s.last)
            && (s1.pending.Some? && s1.pending.value.open < open ==> s1.pending.value.open <= s1.last)
            && (s.pending.Some? && s.pending.value.open >= open ==> s1 == s)
  {
    if s.pending.Some? && s.pending.value.open < open {
      var s1 := CloseOlder(s, open);
      PublishKeepsLive(s, s.pending.value.open, s.pending.value.bar, bucket);
      if IsPublished(s1.out, bucket) && !IsPublished(s.out, bucket) {
        var i :| 0 <= i < |s1.out| && s1.out[i].open == bucket;
        assert i >= |s.out|;
      }
    }
  }

  /** The rest of a candle: published at once, or put in the place of what is pending. */
  lemma CandleKeepsLive(s1: State, e: Event, stepMs: int, bucket: int)
    requires Ordered(s1) && ValidCandle(e)
    requires s1.pending.Some? && s1.pending.value.open < e.open ==> s1.pending.value.open <= s1.last
    ensures var s2 := if e.closes then PublishBar(s1, e.open, e.bar.value)
                      else s1.(pending := Some(Pending(e.open, e.bar.value, FlushAt(e.open, stepMs))));
            && Ordered(s2)
            && (Live(s2, bucket) <==>
                  if bucket == e.open then e.open > s1.last || IsPublished(s1.out, bucket)
                  else Live(s1, bucket)
                       && !(e.open < bucket && !IsPublished(s1.out, bucket) && (!e.closes || e.open > s1.last)))
  {
    if e.closes {
      var s2 := PublishBar(s1, e.open, e.bar.value);
      PublishKeepsLive(s1, e.open, e.bar.value, bucket);
      if IsPublished(s2.out, bucket) && !IsPublished(s1.out, bucket) {
        var i :| 0 <= i < |s2.out| && s2.out[i].open == bucket;
        assert i >= |s1.out|;
      }
    }
  }

  /** Live behind a valid candle, exactly. */
  lemma CandleLive(s: State, e: Event, stepMs: int, bucket: int)
    requires Ordered(s) && ValidCandle(e)
    ensures Live(Step(s, e, stepMs), bucket) <==>
            if bucket == e.open then e.open > s.last || IsPublished(s.out, bucket)
            else Live(s, bucket)
                 && !(e.open < bucket && !IsPublished(s.out, bucket) && (!e.closes || e.open > s.last))
  {
    var s1 := CloseOlder(s, e.open);
    CloseOlderKeepsLive(s, e.open, bucket);
    CandleKeepsLive(s1, e, stepMs, bucket);
    if !e.closes {
      FlushKeepsLive(s1.(pending := Some(Pending(e.open, e.bar.value, FlushAt(e.open, stepMs)))), e.now, bucket);
    }
  }

  /**
    The exact condition, for arbitrary streams: a step loses a bucket that was not lost before if
    and only if its candle is one that loses it.
  */
  lemma CandleLosesIff(before: seq<Event>, e: Event, stepMs: int, open: int)
    ensures !Lost(Run(before, stepMs), before, open) && Lost(Run(before + [e], stepMs), before + [e], open)
       <==> Loses(Run(before, stepMs), LastCandle(before, open).Some?, e, open)
  {
    var s := Run(before, stepMs);
    PublishedInOrder(before, stepMs);
    SoundOverRuns(before, stepMs);
    RunStep(before, e, stepMs);
    NextCandle(before, e, open);
    if ValidCandle(e) {
      CandleLive(s, e, stepMs, open);
    } else if e.Tick? {
      FlushKeepsLive(s, e.now, open);
    }
  }

  /** The candle at this point of the stream loses no bucket. */
  ghost predicate LosesNoneAt(events: seq<Event>, stepMs: int, n: nat)
    requires n < |events|
  {
    forall open :: !Loses(Run(events[..n], stepMs), LastCandle(events[..n], open).Some?, events[n], open)
  }

  ghost predicate LosesNothing(events: seq<Event>, stepMs: int) {
    forall n :: 0 <= n < |events| ==> LosesNoneAt(events, stepMs, n)
  }

  /** Every bucket seen is out, or is the pending one and can still go out. */
  ghost predicate Complete(s: State, events: seq<Event>) {
    forall open :: LastCandle(events, open).Some? ==> Live(s, open)
  }

  ghost predicate CompleteAt(events: seq<Event>, stepMs: int, n: nat)
    requires n <= |events|
  {
    Complete(Run(events[..n], stepMs), events[..n])
  }

  lemma StepStaysComplete(events: seq<Event>, stepMs: int, n: nat)
    requires n < |events| && CompleteAt(events, stepMs, n)
    ensures CompleteAt(events, stepMs, n + 1) <==> LosesNoneAt(events, stepMs, n)
  {
    var before, after := events[..n], events[..n + 1];
    assert after == before + [events[n]];
    forall open
      ensures Lost(Run(after, stepMs), after, open)
         <==> Loses(Run(before, stepMs), LastCandle(before, open).Some?, events[n], open)
    {
      CandleLosesIff(before, events[n], stepMs, open);
    }
    if LosesNoneAt(events, stepMs, n) {
      forall open | LastCandle(after, open).Some? ensures Live(Run(after, stepMs), open) {
        assert !Lost(Run(after, stepMs), after, open);
      }
    }
    if CompleteAt(events, stepMs, n + 1) {
      forall open ensures !Loses(Run(before, stepMs), LastCandle(before, open).Some?, events[n], open) {
        assert !Lost(Run(after, stepMs), after, open);
      }
    }
  }

  lemma {:induction false} LosingNothingIsComplete(events: seq<Event>, stepMs: int, n: nat)
    requires n <= |events| && LosesNothing(events, stepMs)
    ensures CompleteAt(events, stepMs, n)
    decreases n
  {
    if n == 0 {
      assert events[..0] == [];
    } else {
      LosingNothingIsComplete(events, stepMs, n - 1);
      StepStaysComplete(events, stepMs, n - 1);
    }
  }

  /** Nothing is ever missing, at any moment of the stream, if and only if no candle loses a bucket. */
  lemma CompleteIffNothingIsLost(events: seq<Event>, stepMs: int)
    ensures (forall n :: 0 <= n <= |events| ==> CompleteAt(events, stepMs, n)) <==> LosesNothing(events, stepMs)
  {
    if LosesNothing(events, stepMs) {
      forall n | 0 <= n <= |events| ensures CompleteAt(events, stepMs, n) {
        LosingNothingIsComplete(events, stepMs, n);
      }
    }
    if forall n :: 0 <= n <= |events| ==> CompleteAt(events, stepMs, n) {
      forall n | 0 <= n < |events| ensures LosesNoneAt(events, stepMs, n) {
        assert CompleteAt(events, stepMs, n) && CompleteAt(events, stepMs, n + 1);
        StepStaysComplete(events, stepMs, n);
      }
    }
  }

  // -- streams in order --------------------------------------------------

  lemma {:induction false} SeenCandle(events: seq<Event>, open: int)
    ensures LastCandle(events, open).Some? <==>
            exists i :: 0 <= i < |events| && ValidCandle(events[i]) && events[i].open == open
    decreases |events|
  {
    if events != [] {
      var before := events[..|events| - 1];
      SeenCandle(before, open);
      if LastCandle(before, open).Some? {
        var i :| 0 <= i < |before| && ValidCandle(before[i]) && before[i].open == open;
        assert events[i] == before[i];
      }
      if exists i :: 0 <= i < |events| && ValidCandle(events[i]) && events[i].open == open {
        var i :| 0 <= i < |events| && ValidCandle(events[i]) && events[i].open == open;
        if i < |before| {
          assert before[i] == events[i];
        }
      }
    }
  }

  /** The last published time is that of a bucket seen, once there is one. */
  lemma {:induction false} LastIsSeen(events: seq<Event>, stepMs: int)
    ensures var s := Run(events, stepMs); s.last == -1 || LastCandle(events, s.last).Some?
    decreases |events|
  {
    if events != [] {
      var before, e := events[..|events| - 1], events[|events| - 1];
      LastIsSeen(before, stepMs);
      SoundOverRuns(before, stepMs);
      assert events == before + [e];
      NextCandle(before, e, Run(events, stepMs).last);
    }
  }

  /** In a stream in order no candle loses a bucket. */
  lemma InOrderLosesNothing(events: seq<Event>, stepMs: int)
    requires InOrder(events)
    ensures LosesNothing(events, stepMs)
  {
    forall n, open | 0 <= n < |events|
      ensures !Loses(Run(events[..n], stepMs), LastCandle(events[..n], open).Some?, events[n], open)
    {
      var before, s := events[..n], Run(events[..n], stepMs);
      LastIsSeen(before, stepMs);
      SoundOverRuns(before, stepMs);
      SeenCandle(before, s.last);
      SeenCandle(before, open);
      if ValidCandle(events[n]) {
        forall i | 0 <= i < n && ValidCandle(before[i]) ensures before[i].open <= events[n].open {
          assert before[i] == events[i];
        }
      }
    }
    assert forall n :: 0 <= n < |events| ==> LosesNoneAt(events, stepMs, n);
  }

  /** For every stream in order, each bucket seen is published or is the one still pending. */
  lemma EveryBucketIsOutOrPending(events: seq<Event>, stepMs: int)
    requires InOrder(events)
    ensures Complete(Run(events, stepMs), events) && Sound(Run(events, stepMs), events)
  {
    SoundOverRuns(events, stepMs);
    InOrderLosesNothing(events, stepMs);
    CompleteIffNothingIsLost(events, stepMs);
    assert CompleteAt(events, stepMs, |events|) && events[..|events|] == events;
  }

  /** Once a candle has been handled, every earlier bucket with a valid candle is out. */
  lemma EarlierBucketsAreOut(before: seq<Event>, e: Event, stepMs: int, open: int)
    requires InOrder(before + [e]) && ValidCandle(e) && open < e.open && LastCandle(before, open).Some?
    ensures IsPublished(Run(before + [e], stepMs).out, open)
  {
    EveryBucketIsOutOrPending(before + [e], stepMs);
    NextCandle(before, e, open);
    RunStep(before, e, stepMs);
  }

  /** Out of order, a bucket can be lost: an older candle displaces the pending one. */
  lemma OutOfOrderLosesABucket()
    ensures var before := [Candle(60, Some(1), false, 0)];
            && Run(before, 60_000).last == -1
            && Loses(Run(before, 60_000), LastCandle(before, 60).Some?, Candle(0, Some(2), false, 0), 60)
  {
    assert [Candle(60, Some(1), false, 0)][..0] == [];
  }

  // -- the handlers ------------------------------------------------------

  class BarPublisher {
    const stepMs: int
    var pending: Option<Pending>
    var last: int
    var out: seq<Published>

    function View(): State
      reads this
    {
      State(pending, last, out)
    }

    constructor (stepMs: int)
      ensures View() == INITIAL && this.stepMs == stepMs
    {
      this.stepMs := stepMs;
      pending, last, out := None, -1, [];
    }

    method Publish(open: int, bar: int)
      modifies this
      ensures View() == PublishBar(old(View()), open, bar)
    {
      if last >= open {
        return;
      }
      last := open;
      pending := None;
      out := out + [Published(open, bar)];
    }

    method FlushPending(now: int)
      modifies this
      ensures View() == Flush(old(View()), now)
    {
      if pending.None? || pending.value.flushAt == 0 || now < pending.value.flushAt {
        return;
      }
      Publish(pending.value.open, pending.value.bar);
    }

    method HandleCandlestick(open: int, bar: Option<int>, closes: bool, now: int)
      modifies this
      ensures View() == Step(old(View()), Candle(open, bar, closes, now), stepMs)
    {
      if bar.None? {
        return;
      }
      if pending.Some? && pending.value.open < open {
        Publish(pending.value.open, pending.value.bar);
      }
      if closes {
        Publish(open, bar.value);
        return;
      }
      var flushAt := 0;
      if stepMs > 0 {
        var closeNs := open * NANOS_PER_SEC + stepMs * 1_000_000;
        flushAt := closeNs + GRACE_NANOS;
      }
      pending := Some(Pending(open, bar.value, flushAt));
      FlushPending(now);
    }
  }
}
