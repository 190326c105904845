/** The bounded outbound queue of a live session, its sender task and the sequence numbers,
    followed across disconnects and reconnects. */
module OutboundQueue {

  import opened Options

  const CAPACITY := 200

  /** One offered event. `id` tells offers apart; raw audio bytes carry no number. */
  datatype Item = Item(id: nat, number: Option<nat>, critical: bool)

  datatype State = State(
    next: nat,               // number for the next envelope
    record: Option<nat>,     // the number in the session record; claiming the session keeps it
    current: bool,           // the connection that ended wrote it, and nothing removed it since
    alive: bool,             // the sender task is running
    queue: seq<Item>,
    waiting: seq<Item>,      // put tasks of critical events that met a full queue
    sending: Option<Item>,   // taken off the queue, send not finished
    delivered: seq<Item>,    // over all connections
    dropped: seq<Item>,
    lost: seq<Item>,         // send failed, or still undelivered when the connection ended
    offered: seq<Item>)

  datatype Step =
    | Offer(envelope: bool, critical: bool)
    | Admit(k: nat)          // a waiting put gets its slot; any of them may be next
    | Take
    | Sent
    | SendFails
    | StopSender
    | Save
    | Lose                   // the record expires or is deleted
    | Reconnect(resume: nat) // `resume` is the number found in the record, 1 if none could be read

  const INITIAL := State(1, None, false, true, [], [], None, [], [], [], [])

  function InFlight(s: State): seq<Item> {
    if s.sending.Some? then [s.sending.value] else []
  }

  predicate Enabled(s: State, e: Step) {
    match e
    case Offer(_, _) => true
    case Admit(k) => k < |s.waiting| && |s.queue| < CAPACITY
    case Take => s.alive && s.sending.None? && s.queue != []
    case Sent => s.alive && s.sending.Some?
    case SendFails => s.alive && s.sending.Some?
    case StopSender => true
    case Save => !s.alive
    case Lose => true
    case Reconnect(resume) => !s.alive && (resume == 1 || s.record == Some(resume))
  }

  function Apply(s: State, e: Step): State {
    match e
    case Offer(envelope, critical) =>
      var x := Item(|s.offered|, if envelope then Some(s.next) else None, critical);
      var t := s.(next := if envelope then s.next + 1 else s.next, offered := s.offered + [x]);
      if |s.queue| < CAPACITY then t.(queue := s.queue + [x])
      else if critical then t.(waiting := s.waiting + [x])
      else t.(dropped := s.dropped + [x])
    case Admit(k) =>
      if k >= |s.waiting| then s else
      s.(waiting := s.waiting[..k] + s.waiting[k + 1..], queue := s.queue + [s.waiting[k]])
    case Take =>
      if s.queue == [] then s else
      s.(queue := s.queue[1..], sending := Some(s.queue[0]))
    case Sent => s.(delivered := s.delivered + InFlight(s), sending := None)
    case SendFails => s.(lost := s.lost + InFlight(s), sending := None, alive := false)
    case StopSender => s.(lost := s.lost + InFlight(s), sending := None, alive := false)
    case Save => s.(record := Some(s.next), current := true)
    case Lose => s.(record := None, current := false)
    case Reconnect(resume) =>
      s.(next := resume, current := false, alive := true, queue := [], waiting := [], sending := None,
         lost := s.lost + InFlight(s) + s.queue + s.waiting)
  }

  /** What an offer does: an envelope takes the next number and raw audio none; the event joins the
      queue while that has less than 200, and otherwise waits if it is critical and is dropped if not. */
  lemma OfferOutcome(s: State, envelope: bool, critical: bool)
    ensures var t := Apply(s, Offer(envelope, critical));
            && |t.offered| == |s.offered| + 1 && t.offered[..|s.offered|] == s.offered
            && t.next == (if envelope then s.next + 1 else s.next)
            && var x := t.offered[|s.offered|];
               && x.number == (if envelope then Some(s.next) else None) && x.critical == critical
               && t.queue == (if |s.queue| < 200 then s.queue + [x] else s.queue)
               && t.waiting == (if |s.queue| >= 200 && critical then s.waiting + [x] else s.waiting)
               && t.dropped == (if |s.queue| >= 200 && !critical then s.dropped + [x] else s.dropped)
  {
  }

  // ----- runs -----

  function After(h: seq<Step>): State
    decreases |h|
  {
    if h == [] then INITIAL else Apply(After(h[..|h| - 1]), h[|h| - 1])
  }

  ghost predicate Run(h: seq<Step>)
    decreases |h|
  {
    h == [] || (Run(h[..|h| - 1]) && Enabled(After(h[..|h| - 1]), h[|h| - 1]))
  }

  /** A reconnect resumes from the number its predecessor saved on ending. */
  predicate Resumed(s: State, e: Step) {
    e.Reconnect? ==> s.current && s.record == Some(e.resume)
  }

  ghost predicate Resumes(h: seq<Step>)
    decreases |h|
  {
    h == [] || (Resumes(h[..|h| - 1]) && Resumed(After(h[..|h| - 1]), h[|h| - 1]))
  }

  // ----- conservation -----

  /** Everything delivered or still able to be. */
  ghost function InPlay(s: State): multiset<Item> {
    multiset(s.delivered) + multiset(InFlight(s)) + multiset(s.queue) + multiset(s.waiting)
  }

  /** Nothing offered disappears or is duplicated. */
  ghost predicate Conserved(s: State) {
    multiset(s.offered) == InPlay(s) + multiset(s.lost) + multiset(s.dropped)
  }

  ghost predicate OnlyCasualDropped(s: State) {
    && (forall x :: x in s.dropped ==> !x.critical)
    && (forall x :: x in s.waiting ==> x.critical)
  }

  lemma RemoveAt(xs: seq<Item>, k: nat)
    requires k < |xs|
    ensures multiset(xs) == multiset(xs[..k] + xs[k + 1..]) + multiset{xs[k]}
  {
    assert xs == xs[..k] + [xs[k]] + xs[k + 1..];
  }

  /** Admitting, taking and sending only move an item along. */
  lemma AdmitKeepsInPlay(s: State, k: nat)
    requires k < |s.waiting|
    ensures InPlay(Apply(s, Admit(k))) == InPlay(s)
  {
    RemoveAt(s.waiting, k);
  }

  lemma TakeKeepsInPlay(s: State)
    requires s.sending.None?
    ensures InPlay(Apply(s, Take)) == InPlay(s)
  {
    if s.queue != [] {
      assert s.queue == [s.queue[0]] + s.queue[1..];
    }
  }

  lemma SentKeepsInPlay(s: State)
    ensures InPlay(Apply(s, Sent)) == InPlay(s)
  {
  }

  /** An offer joins the items in play or, when the queue is full and it is not critical, the
      dropped ones. */
  lemma OfferInPlay(s: State, envelope: bool, critical: bool)
    ensures var t := Apply(s, Offer(envelope, critical));
            var x := Item(|s.offered|, if envelope then Some(s.next) else None, critical);
            if |s.queue| < CAPACITY || critical then InPlay(t) == InPlay(s) + multiset{x} && t.dropped == s.dropped
            else InPlay(t) == InPlay(s) && t.dropped == s.dropped + [x]
  {
  }

  /** A sender that ends loses what it was sending. */
  lemma StopLoses(s: State, e: Step)
    requires e.SendFails? || e.StopSender?
    ensures InPlay(Apply(s, e)) + multiset(Apply(s, e).lost) == InPlay(s) + multiset(s.lost)
    ensures InPlay(Apply(s, e)) <= InPlay(s)
  {
    assert multiset(s.lost + InFlight(s)) == multiset(s.lost) + multiset(InFlight(s));
  }

  /** A new connection keeps only what was delivered. */
  lemma ReconnectLoses(s: State, resume: nat)
    ensures var t := Apply(s, Reconnect(resume));
            InPlay(t) == multiset(s.delivered) && InPlay(t) + multiset(t.lost) == InPlay(s) + multiset(s.lost)
  {
    var t := Apply(s, Reconnect(resume));
    assert multiset(t.lost) == multiset(s.lost) + multiset(InFlight(s)) + multiset(s.queue) + multiset(s.waiting);
  }

  /** Steps that take nothing in and lose nothing. */
  predicate Moves(e: Step) {
    e.Admit? || e.Take? || e.Sent? || e.Save? || e.Lose?
  }

  lemma MoveKeepsInPlay(s: State, e: Step)
    requires Enabled(s, e) && Moves(e)
    ensures var t := Apply(s, e);
            && InPlay(t) == InPlay(s) && t.next == s.next && t.offered == s.offered
            && t.lost == s.lost && t.dropped == s.dropped
            && ((s.sending.Some? ==> s.alive) ==> (t.sending.Some? ==> t.alive))
  {
    match e
    case Admit(k) => AdmitKeepsInPlay(s, k);
    case Take => TakeKeepsInPlay(s);
    case Sent => SentKeepsInPlay(s);
    case _ => RecordKeepsInPlay(s, e);
    hide InPlay;
  }

  lemma StepConserves(s: State, e: Step)
    requires Enabled(s, e) && Conserved(s)
    ensures Conserved(Apply(s, e))
  {
    hide InPlay;
    if Moves(e) {
      MoveKeepsInPlay(s, e);
      hide Apply;
    } else if e.Offer? {
      OfferInPlay(s, e.envelope, e.critical);
    } else if e.Reconnect? {
      ReconnectLoses(s, e.resume);
    } else {
      StopLoses(s, e);
    }
  }

  lemma RecordKeepsInPlay(s: State, e: Step)
    requires e.Save? || e.Lose?
    ensures InPlay(Apply(s, e)) == InPlay(s)
  {
  }

  lemma StepDropsOnlyCasual(s: State, e: Step)
    requires Enabled(s, e) && OnlyCasualDropped(s)
    ensures OnlyCasualDropped(Apply(s, e))
  {
  }

  /** In every run nothing offered is lost track of, and only non-critical events are dropped. */
  lemma {:induction false} EveryOfferAccountedFor(h: seq<Step>)
    requires Run(h)
    ensures Conserved(After(h)) && OnlyCasualDropped(After(h))
    decreases |h|
  {
    if h == [] {
    } else {
      EveryOfferAccountedFor(h[..|h| - 1]);
      StepConserves(After(h[..|h| - 1]), h[|h| - 1]);
      StepDropsOnlyCasual(After(h[..|h| - 1]), h[|h| - 1]);
    }
  }

  // ----- the queue, the record and the sender over a run -----

  lemma {:induction false} QueueBounded(h: seq<Step>)
    requires Run(h)
    ensures |After(h).queue| <= 200
    decreases |h|
  {
    if h == [] {
    } else {
      QueueBounded(h[..|h| - 1]);
    }
  }

  lemma StepRecord(s: State, e: Step)
    ensures Apply(s, e).record == if e.Save? then Some(s.next) else if e.Lose? then None else s.record
  {
  }

  /** The record holds the number that was next when it was last saved, unless it was lost since. */
  lemma {:induction false} RecordSays(h: seq<Step>, i: nat)
    requires i < |h| && (h[i].Save? || h[i].Lose?) && forall k :: i < k < |h| ==> !h[k].Save? && !h[k].Lose?
    ensures After(h).record == if h[i].Save? then Some(After(h[..i]).next) else None
    decreases |h|
  {
    hide Apply;
    var g := h[..|h| - 1];
    StepRecord(After(g), h[|h| - 1]);
    if i < |g| {
      assert g[..i] == h[..i];
      RecordSays(g, i);
    } else {
      assert h[..i] == g;
    }
  }

  lemma {:induction false} PrefixRun(h: seq<Step>, i: nat)
    requires Run(h) && i < |h|
    ensures Run(h[..i]) && Enabled(After(h[..i]), h[i])
    decreases |h|
  {
    var g := h[..|h| - 1];
    if i < |g| {
      assert g[..i] == h[..i];
      PrefixRun(g, i);
    }
  }

  /** A connection opens only when the one before has stopped, and starts from 1 or from the number that
      was next at the last save, if the record is not lost. */
  lemma ReconnectsFrom(h: seq<Step>, i: nat)
    requires Run(h) && i < |h| && h[i].Reconnect?
    ensures !After(h[..i]).alive
    ensures h[i].resume != 1 ==> exists j: nat :: LastSave(h, j, i) && h[i].resume == After(h[..j]).next
  {
    PrefixRun(h, i);
    hide After;
    hide Run;
    hide LastSave;
    if h[i].resume != 1 {
      var j := RecordFrom(h[..i]);
      LastSaveExtends(h[..i], h, j);
      assert h[..i][..j] == h[..j];
    }
  }

  lemma LastSaveExtends(g: seq<Step>, h: seq<Step>, j: nat)
    requires g <= h && LastSave(g, j, |g|)
    ensures LastSave(h, j, |g|)
  {
  }

  /** The last change of the record before step `i` is the save at step `j`. */
  ghost predicate LastSave(h: seq<Step>, j: nat, i: nat) {
    j < i <= |h| && h[j].Save? && forall k :: j < k < i ==> !h[k].Save? && !h[k].Lose?
  }

  lemma {:induction false} RecordFrom(h: seq<Step>) returns (j: nat)
    requires After(h).record.Some?
    ensures LastSave(h, j, |h|) && After(h).record == Some(After(h[..j]).next)
    decreases |h|
  {
    hide Apply;
    var g, e := h[..|h| - 1], h[|h| - 1];
    StepRecord(After(g), e);
    if e.Save? {
      j := |g|;
      assert h[..j] == g;
    } else {
      j := RecordFrom(g);
      assert g[..j] == h[..j];
    }
  }

  /** Once a send has failed or the sender was stopped, nothing more is delivered on that connection. */
  lemma {:induction false} SilentAfterStop(h: seq<Step>, i: nat)
    requires Run(h) && i < |h| && (h[i].SendFails? || h[i].StopSender?)
    requires forall k :: i < k < |h| ==> !h[k].Reconnect?
    ensures !After(h).alive && After(h).delivered == After(h[..i]).delivered
    decreases |h|
  {
    if i < |h| - 1 {
      var g := h[..|h| - 1];
      assert g[..i] == h[..i];
      SilentAfterStop(g, i);
    } else {
      assert h[..i] == h[..|h| - 1];
    }
  }

  // ----- sequence numbers are delivered twice only after a reconnect below them -----

  /** No number occurs twice. */
  ghost predicate NoRepeats(xs: seq<Item>) {
    forall i, j :: 0 <= i < j < |xs| && xs[i].number.Some? ==> xs[i].number != xs[j].number
  }

  ghost predicate AllBelow(xs: seq<Item>, bound: nat) {
    forall x :: x in xs && x.number.Some? ==> x.number.value < bound
  }

  /** No two of the items, nor two copies of one, carry the same number, and all are below `bound`. */
  ghost predicate Distinct(m: multiset<Item>, bound: nat) {
    && (forall x :: x in m ==> m[x] == 1 && (x.number.Some? ==> x.number.value < bound))
    && (forall x, y :: x in m && y in m && x != y && x.number.Some? ==> x.number != y.number)
  }

  ghost predicate IdsBelow(m: multiset<Item>, bound: nat) {
    forall x :: x in m ==> x.id < bound
  }

  /** Every item has an id of its own, whatever the numbers do. */
  ghost predicate Once(s: State) {
    && (forall x :: x in InPlay(s) ==> InPlay(s)[x] == 1 && x.id < |s.offered|)
    && (s.sending.Some? ==> s.alive)
  }

  ghost predicate NumbersDistinct(s: State) {
    && Distinct(InPlay(s), s.next)
    && IdsBelow(InPlay(s), |s.offered|)
    && (s.sending.Some? ==> s.alive)
  }

  /** A number the ended connection saved is above everything delivered. */
  ghost predicate CurrentAbove(s: State) {
    s.current ==> !s.alive && s.record.Some? && AllBelow(s.delivered, s.record.value)
  }

  /** A reconnect that starts above every number delivered so far. */
  ghost predicate Above(s: State, e: Step) {
    e.Reconnect? ==> AllBelow(s.delivered, e.resume)
  }

  lemma DistinctPart(m: multiset<Item>, part: multiset<Item>, bound: nat)
    requires Distinct(m, bound) && part <= m
    ensures Distinct(part, bound)
  {
  }

  lemma DistinctPlus(m: multiset<Item>, x: Item, bound: nat)
    requires Distinct(m, bound) && IdsBelow(m, x.id) && (x.number.Some? ==> x.number.value == bound)
    ensures IdsBelow(m, x.id + 1) && IdsBelow(m + multiset{x}, x.id + 1)
    ensures Distinct(m, if x.number.Some? then bound + 1 else bound)
    ensures Distinct(m + multiset{x}, if x.number.Some? then bound + 1 else bound)
  {
  }

  lemma OfferKeepsDistinct(s: State, envelope: bool, critical: bool)
    requires Distinct(InPlay(s), s.next) && IdsBelow(InPlay(s), |s.offered|)
    ensures var t := Apply(s, Offer(envelope, critical));
            Distinct(InPlay(t), t.next) && IdsBelow(InPlay(t), |t.offered|)
  {
    hide InPlay;
    hide Distinct;
    hide IdsBelow;
    var x := Item(|s.offered|, if envelope then Some(s.next) else None, critical);
    OfferInPlay(s, envelope, critical);
    DistinctPlus(InPlay(s), x, s.next);
  }

  lemma OfferKeepsRest(s: State, envelope: bool, critical: bool)
    ensures var t := Apply(s, Offer(envelope, critical));
            t.alive == s.alive && t.current == s.current && t.record == s.record && t.sending == s.sending
            && t.delivered == s.delivered && s.next <= t.next
  {
  }

  lemma DeliveredDistinct(s: State)
    requires NumbersDistinct(s)
    ensures Distinct(multiset(s.delivered), s.next) && IdsBelow(multiset(s.delivered), |s.offered|)
    ensures AllBelow(s.delivered, s.next) && NoRepeats(s.delivered)
  {
    DistinctPart(InPlay(s), multiset(s.delivered), s.next);
    DistinctNoRepeats(s.delivered, s.next);
  }

  lemma TwiceInSequence(xs: seq<Item>, i: nat, j: nat)
    requires i < j < |xs| && xs[i] == xs[j]
    ensures multiset(xs)[xs[i]] >= 2
  {
    assert xs == xs[..j] + xs[j..];
    assert xs[i] in xs[..j] && xs[j] in xs[j..];
  }

  lemma DistinctNoRepeats(xs: seq<Item>, bound: nat)
    requires Distinct(multiset(xs), bound)
    ensures AllBelow(xs, bound) && NoRepeats(xs)
  {
    forall x | x in xs && x.number.Some? ensures x.number.value < bound {
      assert x in multiset(xs);
    }
    forall i, j | 0 <= i < j < |xs| && xs[i].number.Some? ensures xs[i].number != xs[j].number {
      if xs[i] == xs[j] {
        TwiceInSequence(xs, i, j);
      }
      assert xs[i] in multiset(xs) && xs[j] in multiset(xs);
    }
  }

  lemma NoRepeatsDistinct(xs: seq<Item>, bound: nat)
    requires NoRepeats(xs) && AllBelow(xs, bound)
    requires forall x :: x in multiset(xs) ==> multiset(xs)[x] == 1
    ensures Distinct(multiset(xs), bound)
  {
    forall x, y | x in multiset(xs) && y in multiset(xs) && x != y && x.number.Some? ensures x.number != y.number {
      var i :| 0 <= i < |xs| && xs[i] == x;
      var j :| 0 <= j < |xs| && xs[j] == y;
    }
  }

  lemma ReconnectKeepsDistinct(s: State, resume: nat)
    requires Once(s) && NoRepeats(s.delivered) && AllBelow(s.delivered, resume)
    ensures NumbersDistinct(Apply(s, Reconnect(resume)))
  {
    ReconnectLoses(s, resume);
    forall x | x in multiset(s.delivered) ensures multiset(s.delivered)[x] == 1 && x.id < |s.offered| {
      assert multiset(s.delivered)[x] <= InPlay(s)[x];
    }
    NoRepeatsDistinct(s.delivered, resume);
  }

  lemma StopKeepsDistinct(s: State, e: Step)
    requires NumbersDistinct(s) && (e.SendFails? || e.StopSender?)
    ensures NumbersDistinct(Apply(s, e))
  {
    StopLoses(s, e);
    DistinctPart(InPlay(s), InPlay(Apply(s, e)), s.next);
    hide InPlay;
    hide Distinct;
  }

  lemma DistinctOnce(s: State)
    requires NumbersDistinct(s)
    ensures Once(s)
  {
  }

  lemma StepKeepsDistinct(s: State, e: Step)
    requires Enabled(s, e) && NumbersDistinct(s) && Above(s, e)
    ensures NumbersDistinct(Apply(s, e))
  {
    hide InPlay;
    hide Distinct;
    hide IdsBelow;
    if Moves(e) {
      MoveKeepsInPlay(s, e);
      hide Apply;
    } else if e.Offer? {
      OfferKeepsDistinct(s, e.envelope, e.critical);
      OfferKeepsRest(s, e.envelope, e.critical);
      hide Apply;
    } else if e.Reconnect? {
      DistinctOnce(s);
      DeliveredDistinct(s);
      ReconnectKeepsDistinct(s, e.resume);
      hide Apply;
    } else {
      StopKeepsDistinct(s, e);
    }
  }

  lemma StepKeepsCurrent(s: State, e: Step)
    requires Enabled(s, e) && CurrentAbove(s) && AllBelow(s.delivered, s.next)
    ensures CurrentAbove(Apply(s, e))
  {
    hide AllBelow;
  }

  lemma StepKeepsOnce(s: State, e: Step)
    requires Enabled(s, e) && Once(s)
    ensures Once(Apply(s, e))
  {
    hide InPlay;
    if Moves(e) {
      MoveKeepsInPlay(s, e);
      hide Apply;
    } else if e.Offer? {
      OfferKeepsOnce(s, e.envelope, e.critical);
    } else if e.Reconnect? {
      ReconnectKeepsOnce(s, e.resume);
    } else {
      StopLoses(s, e);
    }
  }

  lemma OfferKeepsOnce(s: State, envelope: bool, critical: bool)
    requires Once(s)
    ensures Once(Apply(s, Offer(envelope, critical)))
  {
    OfferInPlay(s, envelope, critical);
    OfferKeepsRest(s, envelope, critical);
    hide InPlay;
  }

  lemma ReconnectKeepsOnce(s: State, resume: nat)
    requires Once(s)
    ensures Once(Apply(s, Reconnect(resume)))
  {
    ReconnectLoses(s, resume);
    forall x | x in multiset(s.delivered) ensures multiset(s.delivered)[x] == 1 && x.id < |s.offered| {
      assert multiset(s.delivered)[x] <= InPlay(s)[x];
    }
  }

  /** Ids are unique in every run. */
  lemma {:induction false} RunOnce(h: seq<Step>)
    requires Run(h)
    ensures Once(After(h))
    decreases |h|
  {
    if h == [] {
    } else {
      RunOnce(h[..|h| - 1]);
      StepKeepsOnce(After(h[..|h| - 1]), h[|h| - 1]);
    }
  }

  /** Every reconnect of `h` starts above what was delivered before it. */
  ghost predicate StartsAbove(h: seq<Step>)
    decreases |h|
  {
    h == [] || (StartsAbove(h[..|h| - 1]) && Above(After(h[..|h| - 1]), h[|h| - 1]))
  }

  lemma {:induction false} RunDistinct(h: seq<Step>)
    requires Run(h) && StartsAbove(h)
    ensures NumbersDistinct(After(h))
    decreases |h|
  {
    if h == [] {
    } else {
      RunDistinct(h[..|h| - 1]);
      StepKeepsDistinct(After(h[..|h| - 1]), h[|h| - 1]);
    }
  }

  /** The number saved on ending is above everything delivered, so resuming from it is safe. */
  lemma {:induction false} ResumesStartAbove(h: seq<Step>)
    requires Run(h) && Resumes(h)
    ensures StartsAbove(h) && CurrentAbove(After(h))
    decreases |h|
  {
    if h == [] {
    } else {
      var s, e := After(h[..|h| - 1]), h[|h| - 1];
      ResumesStartAbove(h[..|h| - 1]);
      RunDistinct(h[..|h| - 1]);
      DeliveredDistinct(s);
      StepKeepsCurrent(s, e);
    }
  }

  /** If every connection starts above what was delivered, no sequence number reaches the client
      twice, over any number of reconnects. */
  lemma NoNumberDeliveredTwice(h: seq<Step>)
    requires Run(h) && StartsAbove(h)
    ensures NoRepeats(After(h).delivered)
  {
    RunDistinct(h);
    DeliveredDistinct(After(h));
  }

  // ----- exactly when one connection repeats a number -----

  /** `g` goes on from `h` without another reconnect. */
  ghost predicate SameConnection(h: seq<Step>, g: seq<Step>) {
    && Run(g)
    && h <= g
    && (forall i :: |h| <= i < |g| ==> !g[i].Reconnect?)
  }

  lemma SameConnectionStep(h: seq<Step>, g: seq<Step>, e: Step) returns (longer: seq<Step>)
    requires SameConnection(h, g) && Enabled(After(g), e) && !e.Reconnect?
    ensures SameConnection(h, longer) && After(longer) == Apply(After(g), e) && longer == g + [e]
  {
    longer := g + [e];
    assert longer[..|g|] == g;
  }

  lemma SameConnectionPrefix(h: seq<Step>, g: seq<Step>)
    requires SameConnection(h, g) && |h| < |g|
    ensures SameConnection(h, g[..|g| - 1])
    ensures !g[|g| - 1].Reconnect? && Enabled(After(g[..|g| - 1]), g[|g| - 1])
    ensures After(g) == Apply(After(g[..|g| - 1]), g[|g| - 1])
  {
  }

  lemma {:induction false} ConnectionKeepsDistinct(h: seq<Step>, g: seq<Step>)
    requires SameConnection(h, g) && NumbersDistinct(After(h))
    ensures NumbersDistinct(After(g))
    decreases |g|
  {
    if |h| == |g| {
      assert h == g;
    } else {
      SameConnectionPrefix(h, g);
      ConnectionKeepsDistinct(h, g[..|g| - 1]);
      StepKeepsDistinct(After(g[..|g| - 1]), g[|g| - 1]);
    }
  }

  /** An idle connection can send on until it has used number `n`. */
  lemma {:induction false} SendUpTo(h: seq<Step>, g: seq<Step>, n: nat) returns (longer: seq<Step>)
    requires SameConnection(h, g)
    requires After(g).alive && After(g).sending.None? && After(g).queue == [] && After(g).next <= n
    ensures SameConnection(h, longer) && |After(longer).delivered| > |After(g).delivered|
    ensures After(g).delivered <= After(longer).delivered
    ensures After(longer).delivered[|After(longer).delivered| - 1].number == Some(n)
    decreases n - After(g).next
  {
    hide After;
    hide SameConnection;
    longer := SameConnectionStep(h, g, Offer(true, false));
    longer := SameConnectionStep(h, longer, Take);
    longer := SameConnectionStep(h, longer, Sent);
    if After(g).next < n {
      longer := SendUpTo(h, longer, n);
    }
  }

  /** After a connection ends, a new one repeats a delivered number in some continuation exactly
      when the number it resumes from is not above all those delivered. */
  lemma {:induction false} ReconnectRepeatsIff(h: seq<Step>, resume: nat)
    requires Run(h) && NoRepeats(After(h).delivered) && Enabled(After(h), Reconnect(resume))
    ensures (exists g :: SameConnection(h + [Reconnect(resume)], g) && !NoRepeats(After(g).delivered))
        <==> (exists x :: x in After(h).delivered && x.number.Some? && x.number.value >= resume)
  {
    if x :| x in After(h).delivered && x.number.Some? && x.number.value >= resume {
      var g := RepeatFrom(h, resume, x);
    } else {
      RunOnce(h);
      Reconnected(h, resume);
      ReconnectKeepsDistinct(After(h), resume);
      forall g | SameConnection(h + [Reconnect(resume)], g) ensures NoRepeats(After(g).delivered) {
        ConnectionKeepsDistinct(h + [Reconnect(resume)], g);
        DeliveredDistinct(After(g));
        hide *;
      }
      hide *;
    }
  }

  lemma Reconnected(h: seq<Step>, resume: nat)
    requires Run(h) && Enabled(After(h), Reconnect(resume))
    ensures var r := h + [Reconnect(resume)];
            SameConnection(r, r) && After(r) == Apply(After(h), Reconnect(resume))
  {
    var r := h + [Reconnect(resume)];
    assert r[..|h|] == h;
  }

  /** A connection that resumes at or below a delivered number can send it again. */
  lemma RepeatFrom(h: seq<Step>, resume: nat, x: Item) returns (g: seq<Step>)
    requires Run(h) && Enabled(After(h), Reconnect(resume))
    requires x in After(h).delivered && x.number.Some? && x.number.value >= resume
    ensures SameConnection(h + [Reconnect(resume)], g) && !NoRepeats(After(g).delivered)
  {
    hide After;
    hide Run;
    hide SameConnection;
    hide NoRepeats;
    var r := h + [Reconnect(resume)];
    Reconnected(h, resume);
    g := SendUpTo(r, r, x.number.value);
    RepeatsAtEnd(After(h).delivered, After(g).delivered, x);
  }

  // ----- and exactly when it assigns one again -----

  lemma StepAssigns(s: State, e: Step)
    requires Enabled(s, e) && !e.Reconnect? && NoRepeats(s.offered) && AllBelow(s.offered, s.next)
    ensures NoRepeats(Apply(s, e).offered) && AllBelow(Apply(s, e).offered, Apply(s, e).next)
  {
  }

  lemma {:induction false} ConnectionAssigns(h: seq<Step>, g: seq<Step>)
    requires SameConnection(h, g) && NoRepeats(After(h).offered) && AllBelow(After(h).offered, After(h).next)
    ensures NoRepeats(After(g).offered) && AllBelow(After(g).offered, After(g).next)
    decreases |g|
  {
    hide NoRepeats;
    hide AllBelow;
    if |h| == |g| {
      assert h == g;
    } else {
      SameConnectionPrefix(h, g);
      ConnectionAssigns(h, g[..|g| - 1]);
      StepAssigns(After(g[..|g| - 1]), g[|g| - 1]);
    }
  }

  lemma {:induction false} OfferUpTo(h: seq<Step>, g: seq<Step>, n: nat) returns (longer: seq<Step>)
    requires SameConnection(h, g) && After(g).next <= n
    ensures SameConnection(h, longer) && |After(longer).offered| > |After(g).offered|
    ensures After(g).offered <= After(longer).offered
    ensures After(longer).offered[|After(longer).offered| - 1].number == Some(n)
    decreases n - After(g).next
  {
    hide After;
    hide SameConnection;
    longer := SameConnectionStep(h, g, Offer(true, false));
    if After(g).next < n {
      longer := OfferUpTo(h, longer, n);
    }
  }

  /** Assigned numbers repeat under the same condition on all numbers ever assigned, which the
      number saved before the last transition event does not meet. */
  lemma {:induction false} ReconnectReassignsIff(h: seq<Step>, resume: nat)
    requires Run(h) && NoRepeats(After(h).offered) && Enabled(After(h), Reconnect(resume))
    ensures (exists g :: SameConnection(h + [Reconnect(resume)], g) && !NoRepeats(After(g).offered))
        <==> (exists x :: x in After(h).offered && x.number.Some? && x.number.value >= resume)
  {
    hide After;
    hide Run;
    hide SameConnection;
    hide NoRepeats;
    hide Enabled;
    if x :| x in After(h).offered && x.number.Some? && x.number.value >= resume {
      var g := ReassignFrom(h, resume, x);
    } else {
      assert AllBelow(After(h).offered, resume);
      hide AllBelow;
      forall g | SameConnection(h + [Reconnect(resume)], g) ensures NoRepeats(After(g).offered) {
        Reconnected(h, resume);
        ConnectionAssigns(h + [Reconnect(resume)], g);
      }
    }
  }

  lemma ReassignFrom(h: seq<Step>, resume: nat, x: Item) returns (g: seq<Step>)
    requires Run(h) && Enabled(After(h), Reconnect(resume))
    requires x in After(h).offered && x.number.Some? && x.number.value >= resume
    ensures SameConnection(h + [Reconnect(resume)], g) && !NoRepeats(After(g).offered)
  {
    hide After;
    hide Run;
    hide SameConnection;
    hide NoRepeats;
    var r := h + [Reconnect(resume)];
    Reconnected(h, resume);
    g := OfferUpTo(r, r, x.number.value);
    RepeatsAtEnd(After(h).offered, After(g).offered, x);
  }

  lemma RepeatsAtEnd(xs: seq<Item>, ys: seq<Item>, x: Item)
    requires xs <= ys && |xs| < |ys| && x in xs && x.number.Some? && ys[|ys| - 1].number == x.number
    ensures !NoRepeats(ys)
  {
    var i :| 0 <= i < |xs| && xs[i] == x;
    assert ys[i] == x;
  }

  // ----- numbers go up on the wire until a waiting event is overtaken -----

  ghost predicate Increasing(xs: seq<Item>, bound: nat) {
    && (forall i :: 0 <= i < |xs| && xs[i].number.Some? ==> xs[i].number.value < bound)
    && (forall i, j :: 0 <= i < j < |xs| && xs[i].number.Some? && xs[j].number.Some? ==>
          xs[i].number.value < xs[j].number.value)
  }

  function Wire(s: State): seq<Item> {
    s.delivered + InFlight(s) + s.queue
  }

  /** What was delivered and what will be next is in order. */
  ghost predicate InOrder(s: State) {
    Increasing(Wire(s), s.next)
  }

  /** A waiting event gets its slot behind one with a larger number. */
  ghost predicate Overtaken(s: State, e: Step) {
    && e.Admit?
    && e.k < |s.waiting|
    && s.waiting[e.k].number.Some?
    && exists x :: x in Wire(s) && x.number.Some? && x.number.value > s.waiting[e.k].number.value
  }

  lemma IncreasingWithout(xs: seq<Item>, middle: seq<Item>, ys: seq<Item>, bound: nat)
    requires Increasing(xs + middle + ys, bound)
    ensures Increasing(xs + ys, bound) && Increasing(xs, bound)
  {
    var all := xs + middle + ys;
    assert forall i :: 0 <= i < |xs| ==> xs[i] == all[i];
    assert forall i :: 0 <= i < |xs + ys| ==> (xs + ys)[i] == all[if i < |xs| then i else i + |middle|];
  }

  /** How a step changes the items bound for the wire. */
  lemma WireChange(s: State, e: Step)
    requires Enabled(s, e) && (s.sending.Some? ==> s.alive)
    ensures var w := Wire(Apply(s, e));
            match e
            case Offer(_, _) =>
              || w == Wire(s)
              || w == Wire(s) + [Item(|s.offered|, if e.envelope then Some(s.next) else None, e.critical)]
            case Admit(k) => w == Wire(s) + [s.waiting[k]]
            case Reconnect(_) => w == s.delivered
            case SendFails => w == s.delivered + s.queue
            case StopSender => w == s.delivered + s.queue
            case _ => w == Wire(s)
  {
  }

  lemma IncreasingPlus(xs: seq<Item>, x: Item, bound: nat)
    requires Increasing(xs, bound) && (x.number.Some? ==> x.number.value == bound)
    ensures Increasing(xs, if x.number.Some? then bound + 1 else bound)
    ensures Increasing(xs + [x], if x.number.Some? then bound + 1 else bound)
  {
  }

  lemma IncreasingAtEnd(xs: seq<Item>, x: Item, bound: nat)
    requires Increasing(xs, bound)
    ensures Increasing(xs + [x], bound) <==>
              (x.number.Some? ==> x.number.value < bound && AllBelow(xs, x.number.value))
  {
    var ys := xs + [x];
    assert ys[|xs|] == x && forall i :: 0 <= i < |xs| ==> ys[i] == xs[i];
  }

  lemma IncreasingLower(xs: seq<Item>, bound: nat, lower: nat)
    requires Increasing(xs, bound) && AllBelow(xs, lower)
    ensures Increasing(xs, lower)
  {
  }

  /** A waiting number is below the next one and different from every number on the wire. */
  lemma WaitingDiffers(s: State, k: nat)
    requires NumbersDistinct(s) && k < |s.waiting| && s.waiting[k].number.Some?
    ensures s.waiting[k].number.value < s.next
    ensures forall x :: x in Wire(s) ==> x.number != s.waiting[k].number
  {
    var y := s.waiting[k];
    assert y in multiset(s.waiting);
    forall x | x in Wire(s) ensures x.number != y.number {
      assert multiset(Wire(s)) == multiset(s.delivered) + multiset(InFlight(s)) + multiset(s.queue);
      assert x in multiset(Wire(s));
      assert InPlay(s) == multiset(Wire(s)) + multiset(s.waiting);
      assert InPlay(s)[y] == multiset(Wire(s))[y] + multiset(s.waiting)[y];
    }
  }

  lemma AdmitOnWire(s: State, k: nat)
    requires k < |s.waiting|
    ensures Wire(Apply(s, Admit(k))) == Wire(s) + [s.waiting[k]] && Apply(s, Admit(k)).next == s.next
  {
  }

  lemma AdmitOrder(s: State, k: nat)
    requires Enabled(s, Admit(k)) && NumbersDistinct(s) && InOrder(s)
    ensures InOrder(Apply(s, Admit(k))) <==> !Overtaken(s, Admit(k))
  {
    hide Wire;
    hide Increasing;
    hide NumbersDistinct;
    AdmitOnWire(s, k);
    IncreasingAtEnd(Wire(s), s.waiting[k], s.next);
    if s.waiting[k].number.Some? {
      WaitingDiffers(s, k);
    }
  }

  /** The only step that disturbs the order is one that overtakes. */
  lemma StepOrder(s: State, e: Step)
    requires Enabled(s, e) && NumbersDistinct(s) && InOrder(s) && Above(s, e)
    ensures InOrder(Apply(s, e)) <==> !Overtaken(s, e)
  {
    if e.Admit? {
      AdmitOrder(s, e.k);
    } else {
      StepKeepsOrder(s, e);
    }
  }

  lemma StepKeepsOrder(s: State, e: Step)
    requires Enabled(s, e) && (s.sending.Some? ==> s.alive) && InOrder(s) && Above(s, e) && !e.Admit?
    ensures InOrder(Apply(s, e))
  {
    IncreasingWithout(s.delivered, InFlight(s), s.queue, s.next);
    WireChange(s, e);
    var number := if e.Offer? && e.envelope then Some(s.next) else None;
    IncreasingPlus(Wire(s), Item(|s.offered|, number, e.Offer? && e.critical), s.next);
    if e.Reconnect? {
      IncreasingLower(s.delivered, s.next, e.resume);
    }
    hide Wire;
    hide Increasing;
    hide AllBelow;
  }

  /** No step of `h` overtakes a waiting event. */
  ghost predicate NeverOvertaken(h: seq<Step>)
    decreases |h|
  {
    h == [] || (NeverOvertaken(h[..|h| - 1]) && !Overtaken(After(h[..|h| - 1]), h[|h| - 1]))
  }

  /** The wire is in order after every step of `h`. */
  ghost predicate AlwaysInOrder(h: seq<Step>)
    decreases |h|
  {
    InOrder(After(h)) && (h == [] || AlwaysInOrder(h[..|h| - 1]))
  }

  /** The wire stays in order through a run exactly when no waiting event is overtaken in it. */
  lemma {:induction false} InOrderIff(h: seq<Step>)
    requires Run(h) && StartsAbove(h)
    ensures AlwaysInOrder(h) <==> NeverOvertaken(h)
    decreases |h|
  {
    if h == [] {
    } else {
      var s, e := After(h[..|h| - 1]), h[|h| - 1];
      InOrderIff(h[..|h| - 1]);
      RunDistinct(h[..|h| - 1]);
      if AlwaysInOrder(h[..|h| - 1]) {
        assert InOrder(s);
        StepOrder(s, e);
      }
    }
  }

  /** Then the numbers delivered only go up, across connections too. */
  lemma DeliveredInOrder(h: seq<Step>)
    requires Run(h) && StartsAbove(h) && NeverOvertaken(h)
    ensures Increasing(After(h).delivered, After(h).next)
  {
    InOrderIff(h);
    var s := After(h);
    IncreasingWithout(s.delivered, InFlight(s), s.queue, s.next);
  }

  /** A numbered critical event meets a full queue. */
  predicate Overflows(s: State, e: Step) {
    e.Offer? && e.envelope && e.critical && |s.queue| >= CAPACITY
  }

  ghost predicate NumberWaits(s: State) {
    exists x :: x in s.waiting && x.number.Some?
  }

  ghost predicate NeverOverflows(h: seq<Step>)
    decreases |h|
  {
    h == [] || (NeverOverflows(h[..|h| - 1]) && !Overflows(After(h[..|h| - 1]), h[|h| - 1]))
  }

  lemma StepKeepsNoneWaiting(s: State, e: Step)
    requires Enabled(s, e) && !NumberWaits(s) && !Overflows(s, e)
    ensures !NumberWaits(Apply(s, e))
  {
  }

  /** Nothing is overtaken that never had to wait. */
  lemma {:induction false} NoOverflowNotOvertaken(h: seq<Step>)
    requires Run(h) && NeverOverflows(h)
    ensures NeverOvertaken(h) && !NumberWaits(After(h))
    decreases |h|
  {
    if h == [] {
    } else {
      var s, e := After(h[..|h| - 1]), h[|h| - 1];
      NoOverflowNotOvertaken(h[..|h| - 1]);
      StepKeepsNoneWaiting(s, e);
      if e.Admit? {
        assert s.waiting[e.k] in s.waiting;
      }
    }
  }

  /** So as long as the queue has room for its numbered critical events, delivery is in order. */
  lemma NoOverflowInOrder(h: seq<Step>)
    requires Run(h) && StartsAbove(h) && NeverOverflows(h)
    ensures Increasing(After(h).delivered, After(h).next)
  {
    NoOverflowNotOvertaken(h);
    DeliveredInOrder(h);
  }

  // ----- exactly when one connection can deliver out of order -----

  /** `g` goes on from `h` with no reconnect and no such event. */
  ghost predicate Calm(h: seq<Step>, g: seq<Step>) {
    && SameConnection(h, g)
    && (forall i :: |h| <= i < |g| ==> !Overflows(After(g[..i]), g[i]))
  }

  lemma CalmStep(h: seq<Step>, g: seq<Step>, e: Step) returns (longer: seq<Step>)
    requires Calm(h, g) && Enabled(After(g), e) && !e.Reconnect? && !Overflows(After(g), e)
    ensures Calm(h, longer) && After(longer) == Apply(After(g), e)
  {
    longer := SameConnectionStep(h, g, e);
    assert longer[..|g|] == g;
    forall i | |h| <= i < |g| ensures !Overflows(After(longer[..i]), longer[i]) {
      assert longer[..i] == g[..i];
    }
  }

  lemma CalmPrefix(h: seq<Step>, g: seq<Step>)
    requires Calm(h, g) && |h| < |g|
    ensures Calm(h, g[..|g| - 1])
    ensures !Overflows(After(g[..|g| - 1]), g[|g| - 1])
  {
    var p := g[..|g| - 1];
    SameConnectionPrefix(h, g);
    forall i | |h| <= i < |p| ensures !Overflows(After(p[..i]), p[i]) {
      assert p[..i] == g[..i];
    }
  }

  lemma {:induction false} CalmKeepsOrder(h: seq<Step>, g: seq<Step>)
    requires Calm(h, g) && (After(h).sending.Some? ==> After(h).alive) && InOrder(After(h)) && !NumberWaits(After(h))
    ensures InOrder(After(g)) && !NumberWaits(After(g)) && (After(g).sending.Some? ==> After(g).alive)
    decreases |g|
  {
    if |h| == |g| {
      assert h == g;
    } else {
      var s, e := After(g[..|g| - 1]), g[|g| - 1];
      SameConnectionPrefix(h, g);
      CalmPrefix(h, g);
      CalmKeepsOrder(h, g[..|g| - 1]);
      StepKeepsNoneWaiting(s, e);
      if e.Admit? {
        WireChange(s, e);
        assert s.waiting[e.k] in s.waiting;
        IncreasingAtEnd(Wire(s), s.waiting[e.k], s.next);
      } else {
        StepKeepsOrder(s, e);
      }
    }
  }

  /** The sender empties the queue. */
  lemma {:induction false} Drain(h: seq<Step>, g: seq<Step>) returns (longer: seq<Step>)
    requires Calm(h, g) && After(g).alive
    ensures Calm(h, longer)
    ensures var s, t := After(g), After(longer);
            t.alive && t.sending.None? && t.queue == [] && t.waiting == s.waiting && t.next == s.next
            && t.delivered == Wire(s)
    decreases |After(g).queue|, After(g).sending.Some?
  {
    hide After;
    hide Calm;
    longer := g;
    if After(g).sending.Some? {
      longer := CalmStep(h, longer, Sent);
      longer := Drain(h, longer);
    } else if After(g).queue != [] {
      longer := CalmStep(h, longer, Take);
      longer := Drain(h, longer);
    }
  }

  /** An event that waits can be overtaken: drain, send one more, admit it, send it. */
  lemma {:induction false} Overtake(h: seq<Step>, k: nat) returns (g: seq<Step>)
    requires Run(h) && After(h).alive && k < |After(h).waiting|
    ensures Calm(h, g)
    ensures var d := After(g).delivered;
            |d| >= 2 && d[|d| - 2].number == Some(After(h).next) && d[|d| - 1] == After(h).waiting[k]
  {
    assert Calm(h, h);
    hide After;
    hide Calm;
    hide Run;
    g := Drain(h, h);
    g := CalmStep(h, g, Offer(true, false));
    g := CalmStep(h, g, Take);
    g := CalmStep(h, g, Sent);
    g := CalmStep(h, g, Admit(k));
    g := CalmStep(h, g, Take);
    g := CalmStep(h, g, Sent);
  }

  /** Numbers are given by the connection an event waits on, so those waiting are below the next. */
  lemma {:induction false} WaitingBelowNext(h: seq<Step>)
    requires Run(h)
    ensures AllBelow(After(h).waiting, After(h).next)
    decreases |h|
  {
    if h == [] {
    } else {
      WaitingBelowNext(h[..|h| - 1]);
    }
  }

  /** A live connection that is in order can go on to deliver a number after a larger one, with no
      further numbered overflow, exactly when some waiting event carries a number. */
  lemma {:induction false} ReorderIff(h: seq<Step>)
    requires Run(h) && After(h).alive && InOrder(After(h))
    ensures (exists g :: Calm(h, g) && !Increasing(After(g).delivered, After(g).next)) <==> NumberWaits(After(h))
  {
    if NumberWaits(After(h)) {
      var x :| x in After(h).waiting && x.number.Some?;
      var k :| 0 <= k < |After(h).waiting| && After(h).waiting[k] == x;
      WaitingBelowNext(h);
      var g := Overtake(h, k);
      var d := After(g).delivered;
      assert d[|d| - 2].number.value > d[|d| - 1].number.value;
    } else {
      forall g | Calm(h, g) ensures Increasing(After(g).delivered, After(g).next) {
        CalmKeepsOrder(h, g);
        var s := After(g);
        IncreasingWithout(s.delivered, InFlight(s), s.queue, s.next);
      }
    }
  }

  /** A new connection starts with nothing waiting, so the order is safe again. */
  lemma ReconnectClearsWaiting(s: State, resume: nat)
    requires NumbersDistinct(s) && InOrder(s) && Enabled(s, Reconnect(resume)) && AllBelow(s.delivered, resume)
    ensures var t := Apply(s, Reconnect(resume)); InOrder(t) && !NumberWaits(t)
  {
    StepKeepsOrder(s, Reconnect(resume));
  }

  // ----- where the guarantees stop -----

  lemma Extend(h: seq<Step>, e: Step) returns (longer: seq<Step>)
    requires Run(h) && Enabled(After(h), e)
    ensures Run(longer) && After(longer) == Apply(After(h), e) && longer == h + [e]
    ensures Resumes(longer) <==> Resumes(h) && Resumed(After(h), e)
  {
    longer := h + [e];
    assert longer[..|h|] == h;
  }

  lemma EmptyRun()
    ensures Run([]) && Resumes([]) && After([]) == INITIAL
  {
  }

  /** The number is saved before the last transition event takes it, so the next connection
      assigns it again; only the second of the two is ever delivered. */
  lemma {:induction false} NumberAssignedTwice() returns (h: seq<Step>)
    ensures Run(h) && Resumes(h)
    ensures |After(h).offered| == 2 && After(h).offered[0].number == After(h).offered[1].number == Some(1)
  {
    hide After;
    hide Run;
    hide Resumes;
    EmptyRun();
    h := Extend([], StopSender);
    h := Extend(h, Save);
    h := Extend(h, Offer(true, true));
    h := Extend(h, Reconnect(1));
    h := Extend(h, Offer(true, true));
  }

  /** One event goes out on an idle connection. */
  lemma SendOne(h: seq<Step>) returns (longer: seq<Step>)
    requires Run(h) && After(h).alive && After(h).sending.None? && After(h).queue == []
    ensures Run(longer) && longer == h + [Offer(true, true), Take, Sent]
    ensures var s, t := After(h), After(longer);
            && t.alive && t.sending.None? && t.queue == [] && t.next == s.next + 1 && t.record == s.record
            && |t.delivered| == |s.delivered| + 1
            && t.delivered == s.delivered + [t.delivered[|s.delivered|]]
            && t.delivered[|s.delivered|].number == Some(s.next)
  {
    hide After;
    hide Run;
    hide Resumes;
    longer := Extend(h, Offer(true, true));
    longer := Extend(longer, Take);
    longer := Extend(longer, Sent);
  }

  /** If the record was lost the numbering restarts and the client sees 1 twice. */
  lemma LostRecordRepeatsNumbers() returns (h: seq<Step>)
    ensures Run(h)
    ensures h == [Offer(true, true), Take, Sent, StopSender, Save, Lose, Reconnect(1), Offer(true, true), Take, Sent]
    ensures |After(h).delivered| == 2 && After(h).delivered[0].number == After(h).delivered[1].number == Some(1)
  {
    hide After;
    hide Run;
    hide Resumes;
    EmptyRun();
    h := SendOne([]);
    h := Extend(h, StopSender);
    h := Extend(h, Save);
    h := Extend(h, Lose);
    h := Extend(h, Reconnect(1));
    h := SendOne(h);
  }

  /** A first connection sends 1 and saves; the second resumes from 2 and sends it. */
  lemma ResumedAndSent() returns (h: seq<Step>)
    ensures Run(h)
    ensures h == [Offer(true, true), Take, Sent, StopSender, Save, Reconnect(2), Offer(true, true), Take, Sent]
    ensures var s := After(h);
            && s.alive && s.record == Some(2) && |s.delivered| == 2
            && s.delivered[0].number == Some(1) && s.delivered[1].number == Some(2)
  {
    hide After;
    hide Run;
    hide Resumes;
    EmptyRun();
    h := SendOne([]);
    h := Extend(h, StopSender);
    h := Extend(h, Save);
    h := Extend(h, Reconnect(2));
    h := SendOne(h);
  }

  /** The claim leaves the old number in the record. If the connection that resumed from it
      cannot save its own, the next one resumes from it again: with the record there all along,
      the client sees 2 twice. */
  lemma StaleRecordRepeatsNumbers() returns (h: seq<Step>)
    ensures Run(h)
    ensures h == [Offer(true, true), Take, Sent, StopSender, Save, Reconnect(2), Offer(true, true), Take, Sent,
                  StopSender, Reconnect(2), Offer(true, true), Take, Sent]
    ensures var d := After(h).delivered;
            |d| == 3 && d[0].number == Some(1) && d[1].number == d[2].number == Some(2)
  {
    hide After;
    hide Run;
    hide Resumes;
    h := ResumedAndSent();
    h := Extend(h, StopSender);
    h := Extend(h, Reconnect(2));
    h := SendOne(h);
  }

  lemma {:induction false} FillQueue(n: nat) returns (h: seq<Step>)
    requires n <= CAPACITY
    ensures Run(h) && forall i :: 0 <= i < |h| ==> h[i] == Offer(true, false)
    ensures var s := After(h); |s.queue| == n && s.waiting == [] && s.alive && s.sending.None? && s.next == n + 1
  {
    if n == 0 {
      EmptyRun();
      h := [];
    } else {
      h := FillQueue(n - 1);
      h := Extend(h, Offer(true, false));
    }
  }

  /** So on a first connection already: one overflow, and a later number is delivered first. */
  lemma {:induction false} OverflowReorders() returns (h: seq<Step>)
    ensures Run(h) && forall i :: 0 <= i < |h| ==> !h[i].Reconnect?
    ensures var d := After(h).delivered;
            |d| >= 2 && d[|d| - 2].number == Some(202) && d[|d| - 1].number == Some(201)
  {
    hide After;
    hide Run;
    hide Resumes;
    hide Overflows;
    var full := FillQueue(CAPACITY);
    full := Extend(full, Offer(true, true));
    h := Overtake(full, 0);
  }

  // ----- the queue and its tasks, updated in place -----

  class Outbound {
    var next: nat
    var record: Option<nat>
    ghost var current: bool
    var alive: bool
    var queue: seq<Item>
    var waiting: seq<Item>
    var sending: Option<Item>
    ghost var delivered: seq<Item>
    ghost var dropped: seq<Item>
    ghost var lost: seq<Item>
    ghost var offered: seq<Item>

    ghost function View(): State
      reads this
    {
      State(next, record, current, alive, queue, waiting, sending, delivered, dropped, lost, offered)
    }

    constructor ()
      ensures View() == INITIAL
    {
      next, record, alive, queue, waiting, sending := 1, None, true, [], [], None;
      current, delivered, dropped, lost, offered := false, [], [], [], [];
    }

    /** `enqueue_event`; `id` only names the offer. */
    method EnqueueEvent(id: nat, envelope: bool, critical: bool)
      requires id == |offered|
      modifies this
      ensures View() == Apply(old(View()), Offer(envelope, critical))
    {
      var number := None;
      if envelope {
        number := Some(next);
        next := next + 1;
      }
      var x := Item(id, number, critical);
      offered := offered + [x];
      if |queue| < CAPACITY {
        queue := queue + [x];
      } else if critical {
        waiting := waiting + [x];
      } else {
        dropped := dropped + [x];
      }
    }

    /** A pending put completes. */
    method PutCompletes(k: nat)
      requires Enabled(View(), Admit(k))
      modifies this
      ensures View() == Apply(old(View()), Admit(k))
    {
      queue := queue + [waiting[k]];
      waiting := waiting[..k] + waiting[k + 1..];
    }

    method WorkerGets()
      requires Enabled(View(), Take)
      modifies this
      ensures View() == Apply(old(View()), Take)
    {
      sending := Some(queue[0]);
      queue := queue[1..];
    }

    /** The send returns or raises; raising ends the worker. */
    method WorkerSends(ok: bool)
      requires Enabled(View(), Sent)
      modifies this
      ensures View() == Apply(old(View()), if ok then Sent else SendFails)
    {
      if ok {
        delivered := delivered + [sending.value];
      } else {
        lost := lost + [sending.value];
        alive := false;
      }
      sending := None;
    }

    method CancelSender()
      modifies this
      ensures View() == Apply(old(View()), StopSender)
    {
      lost := lost + InFlight(View());
      sending := None;
      alive := false;
    }

    method SaveNext()
      requires Enabled(View(), Save)
      modifies this
      ensures View() == Apply(old(View()), Save)
    {
      record := Some(next);
      current := true;
    }

    method RecordGone()
      modifies this
      ensures View() == Apply(old(View()), Lose)
    {
      record := None;
      current := false;
    }

    /** A new connection: fresh queue, numbering from the record, or from 1 when there is none
        or the read fails. */
    method OpenConnection(readFails: bool)
      requires !alive
      modifies this
      ensures var resume := if !readFails && old(record).Some? then old(record).value else 1;
              && (resume == 1 || old(record) == Some(resume))
              && View() == Apply(old(View()), Reconnect(resume))
    {
      lost := lost + InFlight(View()) + queue + waiting;
      next := if !readFails && record.Some? then record.value else 1;
      current, alive, queue, waiting, sending := false, true, [], [], None;
    }
  }
}
