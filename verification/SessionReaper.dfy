/** Disconnect, reconnect and reaper steps of one live session, over the shared Redis record
    and a clock. Every await that lets another task in separates two steps: a socket's read of the
    record and its claim, its loss, its save and the expiry set after it, a reaper's check and its
    two writes. */
module SessionReaper {

  import opened Options

  type ConnId = nat

  /** `session:state:<id>`; `active` is "ACTIVE", otherwise "RECONNECTING". */
  datatype Record = Record(active: bool, conn: ConnId, expires: Option<nat>)

  datatype Phase =
    | Admitted                     // authenticated; the session row was not terminal
    | Connected(reconnect: bool)   // has read the record
    | Live                         // has claimed or started the session
    | Closing(started: bool)       // the socket is lost; the connection's closing work goes on
    | Saved                        // the record is written, its expiry not yet set
    | Ended                        // the session is marked finished, its record not yet deleted
    | Gone

  datatype Reaper = Sleeping(deadline: nat) | Passed | Failing

  datatype Status = Open | Completed | Failed

  datatype State = State(
    now: nat,
    record: Option<Record>,
    sockets: map<ConnId, Phase>,
    reapers: map<ConnId, Reaper>,
    status: Status)

  datatype Step =
    | Tick(seconds: nat)
    | Admit(c: ConnId)
    | Read(c: ConnId)
    | ReadFails(c: ConnId)         // and the connection goes on as if there were no record
    | Claim(c: ConnId)
    | Start(c: ConnId)
    | Close(c: ConnId)             // the socket is lost
    | Save(c: ConnId)              // write the reconnecting record
    | Schedule(c: ConnId)          // set its expiry and start a reaper
    | Vanish(c: ConnId)            // the next call raises, and the connection ends without it
    | Finish(c: ConnId, failed: bool)
    | Clear(c: ConnId)             // delete the record of a finished session
    | Check(c: ConnId)             // reaper of connection c wakes and reads the record
    | Abandon(c: ConnId)           // one of its calls raises, which ends it
    | Fail(c: ConnId)              // it marks the session failed
    | Delete(c: ConnId)            // it deletes the record

  const SLACK := 60

  const INITIAL := State(0, None, map[], map[], Open)

  /** What a read of the record returns: nothing once the key has expired. */
  function Lookup(s: State): Option<Record> {
    match s.record
    case None => None
    case Some(r) => if r.expires.Some? && r.expires.value <= s.now then None else s.record
  }

  predicate In(s: State, c: ConnId, p: Phase) {
    c in s.sockets && s.sockets[c] == p
  }

  predicate Attached(s: State, c: ConnId) {
    c in s.sockets && (s.sockets[c].Connected? || s.sockets[c].Live?)
  }

  predicate Enabled(s: State, e: Step) {
    match e
    case Tick(_) => true
    case Admit(c) => c !in s.sockets && s.status == Open
    case Read(c) => In(s, c, Admitted)
    case ReadFails(c) => In(s, c, Admitted)
    case Claim(c) => In(s, c, Connected(true))
    case Start(c) => In(s, c, Connected(false))
    case Close(c) => Attached(s, c)
    case Save(c) => c in s.sockets && s.sockets[c].Closing?
    case Schedule(c) => In(s, c, Saved)
    case Vanish(c) => c in s.sockets && s.sockets[c] != Gone
    case Finish(c, _) => In(s, c, Closing(true))
    case Clear(c) => In(s, c, Ended)
    case Check(c) => c in s.reapers && s.reapers[c].Sleeping? && s.reapers[c].deadline <= s.now
    case Abandon(c) => c in s.reapers
    case Fail(c) => c in s.reapers && s.reapers[c].Passed?
    case Delete(c) => c in s.reapers && s.reapers[c].Failing?
  }

  /** The reaper acts only on a record still reconnecting under its own connection id. */
  predicate CheckPasses(s: State, c: ConnId) {
    Lookup(s).Some? && !Lookup(s).value.active && Lookup(s).value.conn == c
  }

  /** A hash write keeps the key's time to live; a new key has none. */
  function Rewrite(s: State, active: bool, c: ConnId): Record {
    Record(active, c, if Lookup(s).Some? then Lookup(s).value.expires else None)
  }

  function Apply(grace: nat, s: State, e: Step): State {
    match e
    case Tick(d) => s.(now := s.now + d)
    case Admit(c) => s.(sockets := s.sockets[c := Admitted])
    case Read(c) =>
      s.(sockets := s.sockets[c := Connected(Lookup(s).Some? && !Lookup(s).value.active)])
    case ReadFails(c) => s.(sockets := s.sockets[c := Connected(false)])
    case Claim(c) => s.(record := Some(Rewrite(s, true, c)), sockets := s.sockets[c := Live])
    case Start(c) => s.(sockets := s.sockets[c := Live], status := Open)
    case Close(c) => s.(sockets := s.sockets[c := Closing(In(s, c, Live))])
    case Save(c) => s.(record := Some(Rewrite(s, false, c)), sockets := s.sockets[c := Saved])
    case Schedule(c) =>
      s.(record := if Lookup(s).Some? then Some(Lookup(s).value.(expires := Some(s.now + grace + SLACK))) else s.record,
         sockets := s.sockets[c := Gone],
         reapers := s.reapers[c := Sleeping(s.now + grace)])
    case Vanish(c) => s.(sockets := s.sockets[c := Gone])
    case Finish(c, failed) =>
      s.(sockets := s.sockets[c := Ended], status := if failed then Failed else Completed)
    case Clear(c) => s.(record := None, sockets := s.sockets[c := Gone])
    case Check(c) =>
      if CheckPasses(s, c) then s.(reapers := s.reapers[c := Passed]) else s.(reapers := s.reapers - {c})
    case Abandon(c) => s.(reapers := s.reapers - {c})
    case Fail(c) => s.(reapers := s.reapers[c := Failing], status := Failed)
    case Delete(c) => s.(record := None, reapers := s.reapers - {c})
  }

  // ----- runs -----

  function After(grace: nat, h: seq<Step>): State
    decreases |h|
  {
    if h == [] then INITIAL else Apply(grace, After(grace, h[..|h| - 1]), h[|h| - 1])
  }

  ghost predicate Run(grace: nat, h: seq<Step>)
    decreases |h|
  {
    h == [] || (Run(grace, h[..|h| - 1]) && Enabled(After(grace, h[..|h| - 1]), h[|h| - 1]))
  }

  /** The clock just before step `i` of `h`. */
  function Time(grace: nat, h: seq<Step>, i: nat): nat
    requires i <= |h|
  {
    After(grace, h[..i]).now
  }

  /** Setting the expiry changes nothing in the record. */
  predicate WritesRecord(e: Step) {
    e.Claim? || e.Save? || e.Clear? || e.Delete?
  }

  /** The last write to the record in `h` is at step `i`. */
  ghost predicate LastWrite(h: seq<Step>, i: nat) {
    && i < |h| && WritesRecord(h[i])
    && forall k :: i < k < |h| ==> !WritesRecord(h[k])
  }

  /** It is connection `c`'s save. */
  ghost predicate LastSaved(h: seq<Step>, i: nat, c: ConnId) {
    LastWrite(h, i) && h[i] == Save(c)
  }

  /** The last expiry set in `h` is at step `l`. */
  ghost predicate LastSchedule(h: seq<Step>, l: nat) {
    && l < |h| && h[l].Schedule?
    && forall k :: l < k < |h| ==> !h[k].Schedule?
  }

  predicate IsOpen(p: Phase) {
    p.Admitted? || p.Connected? || p.Live?
  }

  ghost predicate OnlySocket(s: State, c: ConnId) {
    forall d :: d in s.sockets && d != c ==> !IsOpen(s.sockets[d])
  }

  ghost predicate Alone(s: State, e: Step) {
    e.Admit? ==> OnlySocket(s, e.c)
  }

  /** Each socket is admitted only once the ones before it are closed, saved or not. */
  ghost predicate OneAtATime(grace: nat, h: seq<Step>)
    decreases |h|
  {
    h == [] || (OneAtATime(grace, h[..|h| - 1]) && Alone(After(grace, h[..|h| - 1]), h[|h| - 1]))
  }

  lemma EmptyRun(grace: nat)
    ensures Run(grace, []) && After(grace, []) == INITIAL && OneAtATime(grace, [])
  {
  }

  lemma Extend(grace: nat, h: seq<Step>, e: Step) returns (longer: seq<Step>)
    requires Run(grace, h) && Enabled(After(grace, h), e)
    ensures longer == h + [e]
    ensures Run(grace, longer) && After(grace, longer) == Apply(grace, After(grace, h), e)
    ensures OneAtATime(grace, longer) <==> OneAtATime(grace, h) && Alone(After(grace, h), e)
  {
    longer := h + [e];
    assert longer[..|h|] == h;
  }

  lemma Unsnoc(grace: nat, h: seq<Step>) returns (g: seq<Step>, e: Step)
    requires h != [] && Run(grace, h)
    ensures h == g + [e] && Run(grace, g) && Enabled(After(grace, g), e)
    ensures After(grace, h) == Apply(grace, After(grace, g), e)
    ensures forall i {:trigger g[..i]} :: 0 <= i <= |g| ==> h[..i] == g[..i]
    ensures forall i :: 0 <= i < |g| ==> h[i] == g[i]
  {
    g, e := h[..|h| - 1], h[|h| - 1];
  }

  // ----- what the record and the reapers say about the past -----

  lemma RecordKept(grace: nat, s: State, e: Step)
    requires !WritesRecord(e) && !e.Schedule?
    ensures Apply(grace, s, e).record == s.record && Apply(grace, s, e).now >= s.now
  {
  }

  /** A record still there after a step that writes nothing was there before it. */
  lemma StandsBefore(grace: nat, s: State, e: Step)
    requires !WritesRecord(e) && Lookup(Apply(grace, s, e)).Some?
    ensures Lookup(s).Some?
  {
  }

  /** The record says who wrote it last and how, or is gone. */
  lemma {:induction false} LastWriteSays(grace: nat, h: seq<Step>, i: nat)
    requires Run(grace, h) && LastWrite(h, i)
    ensures var r := After(grace, h).record;
            match h[i]
            case Claim(c) => r.Some? && r.value.active && r.value.conn == c
            case Save(c) => r.Some? && !r.value.active && r.value.conn == c
            case _ => r.None?
    decreases |h|
  {
    var g, e := Unsnoc(grace, h);
    assert h[|h| - 1] == e;
    if i < |g| {
      assert LastWrite(g, i);
      LastWriteSays(grace, g, i);
    }
  }

  lemma RecordFromSave(grace: nat, h: seq<Step>, i: nat, c: ConnId)
    requires Run(grace, h) && LastSaved(h, i, c)
    ensures var r := After(grace, h).record; r.Some? && !r.value.active && r.value.conn == c
  {
    LastWriteSays(grace, h, i);
  }

  lemma {:induction false} SaverFromRecord(grace: nat, h: seq<Step>) returns (i: nat)
    requires Run(grace, h)
    requires After(grace, h).record.Some? && !After(grace, h).record.value.active
    ensures LastSaved(h, i, After(grace, h).record.value.conn)
    decreases |h|
  {
    var g, e := Unsnoc(grace, h);
    assert h[|h| - 1] == e;
    if e.Save? {
      i := |g|;
    } else {
      i := SaverFromRecord(grace, g);
    }
  }

  predicate DoneSaving(s: State, c: ConnId) {
    In(s, c, Saved) || In(s, c, Gone)
  }

  lemma {:induction false} SaverIsDone(grace: nat, h: seq<Step>, i: nat, c: ConnId)
    requires Run(grace, h) && i < |h| && h[i] == Save(c)
    ensures DoneSaving(After(grace, h), c)
    decreases |h|
  {
    var g, e := Unsnoc(grace, h);
    if i < |g| {
      SaverIsDone(grace, g, i, c);
    }
  }

  /** A connection saves at most once: ids are fresh and nothing leads back to closing. */
  lemma {:induction false} SavesOnce(grace: nat, h: seq<Step>, i: nat, j: nat, c: ConnId)
    requires Run(grace, h) && i <= j < |h| && h[i] == Save(c) && h[j] == Save(c)
    ensures i == j
    decreases |h|
  {
    var g, e := Unsnoc(grace, h);
    if j < |g| {
      SavesOnce(grace, g, i, j, c);
    } else if i < |g| {
      SaverIsDone(grace, g, i, c);
    }
  }

  lemma SaveTimes(grace: nat, h: seq<Step>, i: nat, j: nat, c: ConnId)
    requires Run(grace, h) && i < |h| && j < |h| && h[i] == Save(c) && h[j] == Save(c)
    ensures i == j
  {
    if i <= j {
      SavesOnce(grace, h, i, j, c);
    } else {
      SavesOnce(grace, h, j, i, c);
    }
  }

  lemma {:induction false} SavedFrom(grace: nat, h: seq<Step>, c: ConnId) returns (i: nat)
    requires Run(grace, h) && In(After(grace, h), c, Saved)
    ensures i < |h| && h[i] == Save(c)
    decreases |h|
  {
    var g, e := Unsnoc(grace, h);
    assert h[|h| - 1] == e;
    if e == Save(c) {
      i := |g|;
    } else {
      i := SavedFrom(grace, g, c);
    }
  }

  /** A reaper was scheduled by its own connection, after that connection's save. */
  lemma {:induction false} ReaperFrom(grace: nat, h: seq<Step>, c: ConnId) returns (i: nat, j: nat)
    requires Run(grace, h) && c in After(grace, h).reapers
    ensures i < j < |h| && h[i] == Save(c) && h[j] == Schedule(c)
    ensures After(grace, h).reapers[c].Sleeping? ==> After(grace, h).reapers[c].deadline == Time(grace, h, j) + grace
    decreases |h|
  {
    var g, e := Unsnoc(grace, h);
    assert h[|h| - 1] == e;
    if e == Schedule(c) {
      j := |g|;
      assert h[..j] == g;
      i := SavedFrom(grace, g, c);
    } else {
      i, j := ReaperFrom(grace, g, c);
      assert h[..j] == g[..j];
    }
  }

  // ----- how long the record lasts -----

  /** Nothing writes the record or sets its expiry after step `l`. */
  ghost predicate Untouched(h: seq<Step>, l: nat) {
    forall k :: l < k < |h| ==> !WritesRecord(h[k]) && !h[k].Schedule?
  }

  lemma {:induction false} RecordSince(grace: nat, h: seq<Step>, l: nat)
    requires Run(grace, h) && l < |h| && Untouched(h, l)
    ensures After(grace, h).record == After(grace, h[..l + 1]).record
    ensures After(grace, h).now >= After(grace, h[..l + 1]).now
    decreases |h|
  {
    if l + 1 == |h| {
      assert h[..l + 1] == h;
    } else {
      var g, e := Unsnoc(grace, h);
      assert h[|h| - 1] == e && h[..l + 1] == g[..l + 1];
      RecordSince(grace, g, l);
      RecordKept(grace, After(grace, g), e);
    }
  }

  /** The last expiry set after the last write: if it found the key, the key now lasts the grace
      period and the extra minute from there; if not, there is no key any more. */
  lemma ExpiryFrom(grace: nat, h: seq<Step>, i: nat, l: nat)
    requires Run(grace, h) && LastWrite(h, i) && LastSchedule(h, l) && i < l
    ensures Lookup(After(grace, h)).Some? <==>
            Lookup(After(grace, h[..l])).Some? && After(grace, h).now < Time(grace, h, l) + grace + SLACK
  {
    RecordSince(grace, h, l);
    assert h[..l + 1][..l] == h[..l];
    hide Run;
  }

  /** There is a record and its time is not up. */
  predicate KeyThere(s: State) {
    s.record.Some? && (s.record.value.expires.Some? ==> s.now < s.record.value.expires.value)
  }

  lemma StepKeepsExpiry(grace: nat, s: State, e: Step, until: nat)
    requires Enabled(s, e) && !e.Schedule? && !e.Clear? && !e.Delete?
    requires s.record.Some? && s.record.value.expires == Some(until) && (e.Claim? || e.Save? ==> s.now < until)
    ensures var t := Apply(grace, s, e); t.record.Some? && t.record.value.expires == Some(until)
  {
  }

  lemma ScheduleSetsExpiry(grace: nat, s: State, c: ConnId)
    requires KeyThere(s)
    ensures var t := Apply(grace, s, Schedule(c));
            t.record.Some? && t.record.value.expires == Some(s.now + grace + 60) && t.now == s.now
  {
  }

  /** A read finds something to claim exactly when the key is there and its record reconnecting. */
  lemma ReadDecides(grace: nat, s: State, c: ConnId)
    ensures In(Apply(grace, s, Read(c)), c, Connected(KeyThere(s) && !s.record.value.active))
  {
  }

  /** Claims and saves keep the key's time to live: until it is deleted, a key whose expiry was last
      set at step `l` has exactly the grace period and a minute from there, whatever is written to it
      in that time, and is there exactly until then. */
  lemma {:induction false} WritesKeepExpiry(grace: nat, h: seq<Step>, l: nat)
    requires Run(grace, h) && LastSchedule(h, l) && KeyThere(After(grace, h[..l]))
    requires forall k :: l < k < |h| ==> !h[k].Clear? && !h[k].Delete?
    requires forall k :: l < k < |h| && (h[k].Claim? || h[k].Save?) ==>
             Time(grace, h, k) < Time(grace, h, l) + grace + 60
    ensures After(grace, h).record.Some?
    ensures After(grace, h).record.value.expires == Some(Time(grace, h, l) + grace + 60)
    ensures KeyThere(After(grace, h)) <==> After(grace, h).now < Time(grace, h, l) + grace + 60
    decreases |h|
  {
    var g, e := Unsnoc(grace, h);
    assert e == h[|h| - 1] && h[..l] == g[..l] && h[..|g|] == g;
    hide After;
    hide Run;
    hide Apply;
    hide Enabled;
    if l < |g| {
      assert forall k :: l < k < |g| ==> h[..k] == g[..k];
      WritesKeepExpiry(grace, g, l);
      StepKeepsExpiry(grace, After(grace, g), e, Time(grace, h, l) + grace + 60);
    } else {
      assert g[..l] == g;
      ScheduleSetsExpiry(grace, After(grace, g), e.c);
    }
  }

  /** A claim or save that comes after the time is up makes a new key, and that one never lapses
      unless an expiry is set again. */
  lemma {:induction false} LateWriteNeverLapses(grace: nat, h: seq<Step>, m: nat)
    requires Run(grace, h) && m < |h| && (h[m].Claim? || h[m].Save?) && !KeyThere(After(grace, h[..m]))
    requires forall k :: m < k < |h| ==> !h[k].Schedule? && !h[k].Clear? && !h[k].Delete?
    ensures After(grace, h).record.Some? && After(grace, h).record.value.expires == None
    decreases |h|
  {
    var g, e := Unsnoc(grace, h);
    assert e == h[|h| - 1] && h[..m] == g[..m];
    if m < |g| {
      LateWriteNeverLapses(grace, g, m);
    } else {
      assert g[..m] == g;
    }
  }

  // ----- the order of a connection's steps -----

  /** A connection claims only what it read as reconnecting. */
  ghost predicate ReadReconnecting(grace: nat, h: seq<Step>, c: ConnId) {
    exists m :: && 0 <= m < |h| && h[m] == Read(c)
                && KeyThere(After(grace, h[..m])) && !After(grace, h[..m]).record.value.active
  }

  ghost predicate ReadNothing(grace: nat, h: seq<Step>, c: ConnId) {
    exists m :: && 0 <= m < |h|
                && (h[m] == ReadFails(c)
                    || (h[m] == Read(c)
                        && (KeyThere(After(grace, h[..m])) ==> After(grace, h[..m]).record.value.active)))
  }

  lemma ReadSnoc(grace: nat, g: seq<Step>, h: seq<Step>, c: ConnId)
    requires g <= h
    ensures ReadReconnecting(grace, g, c) ==> ReadReconnecting(grace, h, c)
    ensures ReadNothing(grace, g, c) ==> ReadNothing(grace, h, c)
  {
    forall m | 0 <= m < |g| ensures h[m] == g[m] && h[..m] == g[..m] {
    }
  }

  lemma ReadNow(grace: nat, g: seq<Step>, h: seq<Step>, c: ConnId)
    requires |h| == |g| + 1 && g <= h
    ensures h[|g|] == Read(c) ==>
              if KeyThere(After(grace, g)) && !After(grace, g).record.value.active then ReadReconnecting(grace, h, c)
              else ReadNothing(grace, h, c)
    ensures h[|g|] == ReadFails(c) ==> ReadNothing(grace, h, c)
  {
    assert h[..|g|] == g;
  }

  lemma StepConnected(grace: nat, s: State, e: Step, c: ConnId, reconnect: bool)
    requires Enabled(s, e) && In(Apply(grace, s, e), c, Connected(reconnect))
    ensures || In(s, c, Connected(reconnect))
            || (e == Read(c) && reconnect == (KeyThere(s) && !s.record.value.active))
            || (e == ReadFails(c) && !reconnect)
  {
  }

  lemma {:induction false} ConnectedFrom(grace: nat, h: seq<Step>, c: ConnId)
    requires Run(grace, h)
    ensures In(After(grace, h), c, Connected(true)) ==> ReadReconnecting(grace, h, c)
    ensures In(After(grace, h), c, Connected(false)) ==> ReadNothing(grace, h, c)
    decreases |h|
  {
    if h == [] {
    } else {
      var g, e := Unsnoc(grace, h);
      assert h[|g|] == e;
      ConnectedFrom(grace, g, c);
      ReadSnoc(grace, g, h, c);
      ReadNow(grace, g, h, c);
      hide ReadReconnecting;
      hide ReadNothing;
      hide After;
      hide Run;
      hide Apply;
      hide Enabled;
      hide KeyThere;
      if In(After(grace, h), c, Connected(true)) {
        StepConnected(grace, After(grace, g), e, c, true);
      } else if In(After(grace, h), c, Connected(false)) {
        StepConnected(grace, After(grace, g), e, c, false);
      }
    }
  }

  /** A connection claims the session only if it read it as reconnecting, and starts it only if it did
      not or could not read it. */
  lemma ClaimsOrStarts(grace: nat, h: seq<Step>, c: ConnId)
    requires Run(grace, h)
    ensures Enabled(After(grace, h), Claim(c)) ==> ReadReconnecting(grace, h, c)
    ensures Enabled(After(grace, h), Start(c)) ==> ReadNothing(grace, h, c)
  {
    ConnectedFrom(grace, h, c);
    hide After;
    hide Run;
  }

  lemma StepComesAfter(grace: nat, s: State, e: Step, c: ConnId)
    requires Enabled(s, e)
    ensures c in Apply(grace, s, e).sockets ==> c in s.sockets || e == Admit(c)
    ensures Enabled(Apply(grace, s, e), Delete(c)) ==> Enabled(s, Delete(c)) || e == Fail(c)
  {
  }

  /** Only a connection that was admitted has a phase, and only a reaper that failed the session deletes
      its record. */
  lemma {:induction false} ComesAfter(grace: nat, h: seq<Step>, c: ConnId)
    requires Run(grace, h)
    ensures c in After(grace, h).sockets ==> Admit(c) in h
    ensures Enabled(After(grace, h), Delete(c)) ==> Fail(c) in h
    decreases |h|
  {
    if h == [] {
    } else {
      var g, e := Unsnoc(grace, h);
      ComesAfter(grace, g, c);
      assert h[|g|] == e && forall x :: x in g ==> x in h;
      StepComesAfter(grace, After(grace, g), e, c);
      hide After;
      hide Run;
      hide Apply;
    }
  }

  // ----- the session's status, and who may finish it -----

  predicate SetsStatus(e: Step) {
    e.Start? || e.Finish? || e.Fail?
  }

  /** The status is that of the last start, finish or failing write: a start after a failure opens
      the session again. */
  lemma {:induction false} StatusFromLast(grace: nat, h: seq<Step>, i: nat)
    requires Run(grace, h)
    requires i < |h| ==> SetsStatus(h[i])
    requires forall k :: 0 <= k < |h| && (i < k || i >= |h|) ==> !SetsStatus(h[k])
    ensures After(grace, h).status ==
            if i >= |h| || h[i].Start? then Open
            else if h[i].Fail? || h[i].failed then Failed else Completed
    decreases |h|
  {
    if h == [] {
    } else {
      var g, e := Unsnoc(grace, h);
      assert h[|h| - 1] == e;
      if i != |g| {
        StatusFromLast(grace, g, if i < |g| then i else |g|);
      }
    }
  }

  ghost predicate EverLive(h: seq<Step>, c: ConnId) {
    exists k :: 0 <= k < |h| && (h[k] == Start(c) || h[k] == Claim(c))
  }

  /** A closing connection can finish its session exactly when it once claimed or started it. */
  lemma {:induction false} FinishesIfLive(grace: nat, h: seq<Step>, c: ConnId)
    requires Run(grace, h) && c in After(grace, h).sockets
    ensures var p := After(grace, h).sockets[c];
            && (p.Admitted? || p.Connected? ==> !EverLive(h, c))
            && (p.Live? ==> EverLive(h, c))
            && (p.Closing? ==> (EverLive(h, c) <==> Enabled(After(grace, h), Finish(c, true))))
    decreases |h|
  {
    var g, e := Unsnoc(grace, h);
    assert h[|h| - 1] == e;
    EverLiveSnoc(g, e, c);
    if c in After(grace, g).sockets {
      FinishesIfLive(grace, g, c);
    } else {
      NeverSeen(grace, g, c);
    }
  }

  lemma EverLiveSnoc(g: seq<Step>, e: Step, c: ConnId)
    ensures EverLive(g + [e], c) <==> EverLive(g, c) || e == Start(c) || e == Claim(c)
  {
    var h := g + [e];
    assert h[|g|] == e && forall k :: 0 <= k < |g| ==> h[k] == g[k];
  }

  lemma {:induction false} NeverSeen(grace: nat, h: seq<Step>, c: ConnId)
    requires Run(grace, h) && c !in After(grace, h).sockets
    ensures !EverLive(h, c)
    decreases |h|
  {
    if h == [] {
    } else {
      var g, e := Unsnoc(grace, h);
      EverLiveSnoc(g, e, c);
      NeverSeen(grace, g, c);
    }
  }

  lemma {:induction false} LastScheduleFrom(h: seq<Step>, j: nat) returns (l: nat)
    requires j < |h| && h[j].Schedule?
    ensures LastSchedule(h, l) && j <= l
    decreases |h|
  {
    if h[|h| - 1].Schedule? {
      l := |h| - 1;
    } else {
      l := LastScheduleFrom(h[..|h| - 1], j);
    }
  }

  // ----- when a reaper fires -----

  /** `c`'s save at step `i` is the last write to the record, its reaper was scheduled at step `j`
      the grace period ago, and the key found by the last setting of its expiry, at step `l`, is
      less than the grace period and the extra minute old. */
  ghost predicate DueSince(grace: nat, h: seq<Step>, i: nat, j: nat, l: nat, c: ConnId) {
    && LastSaved(h, i, c) && LastSchedule(h, l)
    && i < j <= l && h[j] == Schedule(c)
    && Lookup(After(grace, h[..l])).Some?
    && Time(grace, h, j) + grace <= After(grace, h).now < Time(grace, h, l) + grace + SLACK
  }

  /** A waking reaper goes on exactly when its own connection's save is the last thing that was
      written to the record, and the key has not expired, which depends only on when its expiry was
      last set and whether the key was still there then. */
  lemma ReaperPassesIff(grace: nat, h: seq<Step>, c: ConnId)
    requires Run(grace, h) && Enabled(After(grace, h), Check(c))
    ensures CheckPasses(After(grace, h), c) <==>
            exists i: nat, j: nat, l: nat :: DueSince(grace, h, i, j, l, c)
    ensures CheckPasses(After(grace, h), c) ==> Lookup(After(grace, h)).Some?
  {
    var s := After(grace, h);
    var i, j := ReaperFrom(grace, h, c);
    var l := LastScheduleFrom(h, j);
    if CheckPasses(s, c) {
      var m := SaverFromRecord(grace, h);
      SaveTimes(grace, h, i, m, c);
      ExpiryFrom(grace, h, i, l);
      assert DueSince(grace, h, i, j, l, c);
    }
    if i: nat, j: nat, l: nat :| DueSince(grace, h, i, j, l, c) {
      RecordFromSave(grace, h, i, c);
      ExpiryFrom(grace, h, i, l);
    }
  }

  /** In the plain case, the expiry set in the second of the save and no other since, it goes on
      exactly while its save is the last write, until a minute after its deadline. */
  lemma ReaperPassesAloneIff(grace: nat, h: seq<Step>, i: nat, j: nat, c: ConnId)
    requires Run(grace, h) && Enabled(After(grace, h), Check(c))
    requires LastSchedule(h, j) && h[j] == Schedule(c) && i < j && h[i] == Save(c)
    requires Time(grace, h, i) == Time(grace, h, j)
    ensures CheckPasses(After(grace, h), c) <==>
            LastWrite(h, i) && After(grace, h).now < Time(grace, h, j) + grace + SLACK
  {
    ReaperPassesIff(grace, h, c);
    if CheckPasses(After(grace, h), c) {
      var m: nat, n: nat, l: nat :| DueSince(grace, h, m, n, l, c);
      SaveTimes(grace, h, i, m, c);
    }
    if LastWrite(h, i) && After(grace, h).now < Time(grace, h, j) + grace + SLACK {
      StillThere(grace, h, i, j, c);
      var p, q := ReaperFrom(grace, h, c);
      ScheduleOnce(grace, h, j, q, c);
      assert DueSince(grace, h, i, j, j, c);
    }
  }

  lemma SaveIsThere(grace: nat, s: State, c: ConnId)
    ensures Lookup(Apply(grace, s, Save(c))).Some?
  {
  }

  lemma StaysInSecond(grace: nat, s: State, e: Step)
    requires !WritesRecord(e) && Lookup(s).Some? && Apply(grace, s, e).now == s.now
    ensures Lookup(Apply(grace, s, e)).Some?
  {
  }

  /** A key just saved is there for the rest of the second. */
  lemma {:induction false} StillThere(grace: nat, h: seq<Step>, i: nat, j: nat, c: ConnId)
    requires Run(grace, h) && LastSaved(h, i, c) && i < j <= |h| && Time(grace, h, i) == Time(grace, h, j)
    ensures Lookup(After(grace, h[..j])).Some?
    decreases j
  {
    ClockGrows(grace, h, i, j - 1);
    ClockGrows(grace, h, j - 1, j);
    StepOf(grace, h, j - 1);
    hide After;
    hide Run;
    hide Apply;
    hide Lookup;
    if j - 1 == i {
      SaveIsThere(grace, After(grace, h[..i]), c);
    } else {
      StillThere(grace, h, i, j - 1, c);
      StaysInSecond(grace, After(grace, h[..j - 1]), h[j - 1]);
    }
  }

  lemma {:induction false} StepOf(grace: nat, h: seq<Step>, i: nat)
    requires Run(grace, h) && i < |h|
    ensures After(grace, h[..i + 1]) == Apply(grace, After(grace, h[..i]), h[i])
  {
    assert h[..i + 1][..i] == h[..i];
  }

  lemma {:induction false} ClockGrows(grace: nat, h: seq<Step>, i: nat, j: nat)
    requires Run(grace, h) && i <= j <= |h|
    ensures Time(grace, h, i) <= Time(grace, h, j)
    decreases j
  {
    if i < j {
      ClockGrows(grace, h, i, j - 1);
      StepOf(grace, h, j - 1);
    }
  }

  lemma {:induction false} ScheduledIsGone(grace: nat, h: seq<Step>, j: nat, c: ConnId)
    requires Run(grace, h) && j < |h| && h[j] == Schedule(c)
    ensures In(After(grace, h), c, Gone)
    decreases |h|
  {
    var g, e := Unsnoc(grace, h);
    if j < |g| {
      ScheduledIsGone(grace, g, j, c);
    }
  }

  lemma {:induction false} ScheduleOnce(grace: nat, h: seq<Step>, i: nat, j: nat, c: ConnId)
    requires Run(grace, h) && i < |h| && j < |h| && h[i] == Schedule(c) && h[j] == Schedule(c)
    ensures i == j
    decreases |h|
  {
    var g, e := Unsnoc(grace, h);
    if i < |g| && j < |g| {
      ScheduleOnce(grace, g, i, j, c);
    } else if i < |g| {
      ScheduledIsGone(grace, g, i, c);
    } else if j < |g| {
      ScheduledIsGone(grace, g, j, c);
    }
  }

  /** A key that the expiry found outlasts its reaper's deadline by the extra minute, or by more if
      another connection's expiry comes later, as long as nothing is written. */
  lemma {:induction false} RecordOutlivesReaper(grace: nat, h: seq<Step>, i: nat, j: nat, c: ConnId)
    requires Run(grace, h) && LastSaved(h, i, c) && i < j < |h| && h[j] == Schedule(c)
    requires Lookup(After(grace, h[..j])).Some?
    ensures var r := After(grace, h).record;
            r.Some? && r.value.expires.Some? && r.value.expires.value >= Time(grace, h, j) + grace + SLACK
    decreases |h|
  {
    var g, e := Unsnoc(grace, h);
    assert e == h[|h| - 1] && h[..j] == g[..j];
    if j == |g| {
      assert h[..j] == g;
    } else {
      assert LastSaved(g, i, c);
      RecordOutlivesReaper(grace, g, i, j, c);
      ClockGrows(grace, h, j, |g|);
      assert h[..|g|] == g;
    }
  }

  /** A reaper whose connection's save has since been overwritten, by a claim or by a later
      connection's own disconnect, never fires. */
  lemma StaleReaperNeverFires(grace: nat, h: seq<Step>, i: nat, k: nat, c: ConnId)
    requires Run(grace, h) && Enabled(After(grace, h), Check(c))
    requires i < k < |h| && h[i] == Save(c) && WritesRecord(h[k])
    ensures !CheckPasses(After(grace, h), c)
  {
    ReaperPassesIff(grace, h, c);
    if m: nat, j: nat, l: nat :| DueSince(grace, h, m, j, l, c) {
      SaveTimes(grace, h, i, m, c);
    }
  }

  /** A reaper one of whose calls raised does nothing more. */
  lemma {:induction false} AbandonedIsOver(grace: nat, h: seq<Step>, m: nat, c: ConnId)
    requires Run(grace, h) && m < |h| && h[m] == Abandon(c)
    ensures c !in After(grace, h).reapers
    decreases |h|
  {
    var g, e := Unsnoc(grace, h);
    if m < |g| {
      AbandonedIsOver(grace, g, m, c);
      if e == Schedule(c) {
        PrefixOf(grace, h, m);
        var i, j := ReaperFrom(grace, h[..m], c);
        assert h[j] == Schedule(c) && h[|g|] == e;
        ScheduleOnce(grace, h, j, |g|, c);
      }
    }
  }

  // ----- a save whose expiry fails -----

  ghost predicate Unscheduled(h: seq<Step>, c: ConnId) {
    forall j :: 0 <= j < |h| ==> h[j] != Schedule(c)
  }

  /** A save whose expiry could not be set has no reaper of its own, and no other reaper passes
      its check while it stands. */
  lemma UnscheduledSaveStopsReapers(grace: nat, h: seq<Step>, i: nat, c: ConnId)
    requires Run(grace, h) && i < |h| && h[i] == Save(c) && Unscheduled(h, c)
    ensures c !in After(grace, h).reapers
    ensures LastWrite(h, i) ==>
      forall d :: Enabled(After(grace, h), Check(d)) ==> !CheckPasses(After(grace, h), d)
  {
    if c in After(grace, h).reapers {
      var m, j := ReaperFrom(grace, h, c);
      assert false;
    }
    forall d | LastWrite(h, i) && Enabled(After(grace, h), Check(d)) ensures !CheckPasses(After(grace, h), d) {
      RecordFromSave(grace, h, i, c);
    }
  }

  /** `g` goes on from `h`, whose last step is `c`'s save, to where `d`'s reaper is about to fail the
      session, with that save still the last write and its expiry never set. */
  ghost predicate AboutToFail(grace: nat, h: seq<Step>, g: seq<Step>, c: ConnId, d: ConnId) {
    && h <= g && h != [] && Run(grace, g)
    && LastWrite(g, |h| - 1) && Unscheduled(g, c) && Enabled(After(grace, g), Fail(d))
  }

  lemma {:induction false} PassedBefore(grace: nat, h: seq<Step>, i: nat, c: ConnId, d: ConnId)
    requires Run(grace, h) && LastSaved(h, i, c) && Unscheduled(h, c)
    requires d in After(grace, h).reapers && After(grace, h).reapers[d].Passed?
    ensures d in After(grace, h[..i]).reapers && After(grace, h[..i]).reapers[d].Passed?
    decreases |h|
  {
    var g, e := Unsnoc(grace, h);
    assert h[|h| - 1] == e && h[..i] == g[..i];
    if i == |g| {
      assert g[..i] == g;
    } else {
      if e == Check(d) {
        UnscheduledSaveStopsReapers(grace, g, i, c);
      }
      PassedBefore(grace, g, i, c, d);
    }
  }

  /** The session such a save leaves reconnecting is failed, while that save stands, only by a
      reaper that had passed its check already, and that one can go on. */
  lemma UnscheduledSaveFailedIff(grace: nat, h: seq<Step>, c: ConnId, d: ConnId)
    requires Run(grace, h) && Enabled(After(grace, h), Save(c))
    ensures (exists g :: AboutToFail(grace, h + [Save(c)], g, c, d))
        <==> (d in After(grace, h).reapers && After(grace, h).reapers[d].Passed?)
  {
    var r := Extend(grace, h, Save(c));
    if g :| AboutToFail(grace, r, g, c, d) {
      assert g[|h|] == r[|h|] && g[..|h|] == r[..|h|] == h;
      PassedBefore(grace, g, |h|, c, d);
    }
    if d in After(grace, h).reapers && After(grace, h).reapers[d].Passed? {
      NotYetScheduled(grace, h, c);
      assert forall j :: 0 <= j < |r| ==> r[j] == if j < |h| then h[j] else Save(c);
      assert AboutToFail(grace, r, r, c, d);
    }
  }

  lemma NotYetScheduled(grace: nat, h: seq<Step>, c: ConnId)
    requires Run(grace, h) && Enabled(After(grace, h), Save(c))
    ensures Unscheduled(h, c)
  {
    forall j | 0 <= j < |h| ensures h[j] != Schedule(c) {
      if h[j] == Schedule(c) {
        ScheduledIsGone(grace, h, j, c);
        assert false;
      }
    }
  }

  lemma {:induction false} PrefixOf(grace: nat, h: seq<Step>, i: nat)
    requires Run(grace, h) && i < |h|
    ensures Run(grace, h[..i]) && Enabled(After(grace, h[..i]), h[i])
    ensures OneAtATime(grace, h) ==> OneAtATime(grace, h[..i])
    decreases |h|
  {
    var g, e := Unsnoc(grace, h);
    assert g == h[..|h| - 1];
    if i < |g| {
      PrefixOf(grace, g, i);
    }
    assert h[..i] == g[..i];
  }

  lemma {:induction false} PassedFromCheck(grace: nat, h: seq<Step>, c: ConnId) returns (j: nat)
    requires Run(grace, h) && c in After(grace, h).reapers && After(grace, h).reapers[c].Passed?
    ensures j < |h| && h[j] == Check(c) && Run(grace, h[..j])
    ensures Enabled(After(grace, h[..j]), Check(c)) && CheckPasses(After(grace, h[..j]), c)
    decreases |h|
  {
    var g, e := Unsnoc(grace, h);
    assert h[|h| - 1] == e;
    if e == Check(c) {
      j := |g|;
      assert h[..j] == g;
    } else {
      j := PassedFromCheck(grace, g, c);
      assert h[..j] == g[..j];
    }
  }

  ghost predicate ClaimedAfter(h: seq<Step>, i: nat) {
    exists k :: i < k < |h| && h[k].Claim?
  }

  /** A session is failed only after its reaper's check found the grace period over and the save
      still the last write; and it has been claimed since that save exactly when a claim slipped
      in between the check and the failing write. */
  lemma ReapedOnlyAfterGrace(grace: nat, h: seq<Step>, c: ConnId) returns (i: nat, p: nat, j: nat)
    requires Run(grace, h) && Enabled(After(grace, h), Fail(c))
    ensures i < p < j < |h| && h[i] == Save(c) && h[p] == Schedule(c) && h[j] == Check(c)
    ensures LastSaved(h[..j], i, c) && Time(grace, h, p) + grace <= Time(grace, h, j)
    ensures ClaimedAfter(h, i) <==> ClaimedAfter(h, j)
    ensures j == |h| - 1 ==> !ClaimedAfter(h, i)
  {
    j := PassedFromCheck(grace, h, c);
    hide After;
    hide Run;
    hide Enabled;
    hide CheckPasses;
    hide Lookup;
    var g := h[..j];
    i, p := PassedSince(grace, g, c);
    assert g[..p] == h[..p];
    assert forall k :: 0 <= k < j ==> h[k] == g[k];
  }

  lemma PassedSince(grace: nat, h: seq<Step>, c: ConnId) returns (i: nat, p: nat)
    requires Run(grace, h) && Enabled(After(grace, h), Check(c)) && CheckPasses(After(grace, h), c)
    ensures i < p < |h| && LastSaved(h, i, c) && h[p] == Schedule(c)
    ensures Time(grace, h, p) + grace <= After(grace, h).now
  {
    ReaperPassesIff(grace, h, c);
    var l: nat;
    i, p, l :| DueSince(grace, h, i, p, l, c);
  }

  lemma FirstSocketLive(grace: nat) returns (h: seq<Step>)
    ensures Run(grace, h) && OneAtATime(grace, h) && h == [Admit(0), Read(0), Start(0)]
    ensures After(grace, h) == State(0, None, map[0 := Live], map[], Open)
  {
    hide After;
    hide Run;
    hide OneAtATime;
    EmptyRun(grace);
    h := Extend(grace, [], Admit(0));
    h := Extend(grace, h, Read(0));
    h := Extend(grace, h, Start(0));
    assert map[0 := Admitted][0 := Connected(false)][0 := Live] == map[0 := Live];
  }

  lemma FirstSocketSaved(grace: nat) returns (h: seq<Step>)
    ensures Run(grace, h) && OneAtATime(grace, h)
    ensures h == [Admit(0), Read(0), Start(0), Close(0), Save(0), Schedule(0)]
    ensures Time(grace, h, 3) == 0
    ensures After(grace, h) ==
            State(0, Some(Record(false, 0, Some(grace + SLACK))), map[0 := Gone], map[0 := Sleeping(grace)], Open)
  {
    hide After;
    hide Run;
    hide OneAtATime;
    var first := FirstSocketLive(grace);
    h := Extend(grace, first, Close(0));
    h := Extend(grace, h, Save(0));
    assert After(grace, h).record == Some(Record(false, 0, None));
    h := Extend(grace, h, Schedule(0));
    assert h[..3] == first;
    assert map[0 := Live][0 := Closing(true)][0 := Saved][0 := Gone] == map[0 := Gone];
  }

  /** The client is back, and its record read, in the very second of the disconnect. */
  lemma BackAtOnce(grace: nat) returns (h: seq<Step>)
    ensures Run(grace, h) && OneAtATime(grace, h)
    ensures h == [Admit(0), Read(0), Start(0), Close(0), Save(0), Schedule(0), Admit(1), Read(1)]
    ensures Time(grace, h, 3) == Time(grace, h, 7) == 0
    ensures After(grace, h) == State(0, Some(Record(false, 0, Some(grace + SLACK))),
                                     map[0 := Gone, 1 := Connected(true)], map[0 := Sleeping(grace)], Open)
  {
    hide After;
    hide Run;
    hide OneAtATime;
    var saved := FirstSocketSaved(grace);
    var admitted := Extend(grace, saved, Admit(1));
    h := Extend(grace, admitted, Read(1));
    assert h[..7] == admitted && h[..3] == saved[..3];
    assert map[0 := Gone][1 := Admitted][1 := Connected(true)] == map[0 := Gone, 1 := Connected(true)];
  }

  /** The claim itself comes only after the reaper's check. */
  lemma ClaimedAfterCheck(grace: nat) returns (h: seq<Step>)
    ensures Run(grace, h) && OneAtATime(grace, h)
    ensures h == [Admit(0), Read(0), Start(0), Close(0), Save(0), Schedule(0), Admit(1), Read(1), Tick(grace),
                  Check(0), Claim(1)]
    ensures Time(grace, h, 3) == Time(grace, h, 7) == 0
    ensures var s := After(grace, h);
            In(s, 1, Live) && 0 in s.reapers && s.reapers[0] == Passed
  {
    hide After;
    hide Run;
    hide OneAtATime;
    var back := BackAtOnce(grace);
    h := Extend(grace, back, Tick(grace));
    h := Extend(grace, h, Check(0));
    h := Extend(grace, h, Claim(1));
    assert h[..3] == back[..3] && h[..7] == back[..7];
  }

  /** The check and the failing write are separate awaits, and the gap is real: for every grace
      period, with one socket at a time, the reaper can fail a session whose client came back
      at once and is live. */
  lemma ClaimBetweenCheckAndFail(grace: nat) returns (h: seq<Step>)
    ensures Run(grace, h) && OneAtATime(grace, h)
    ensures h == [Admit(0), Read(0), Start(0), Close(0), Save(0), Schedule(0), Admit(1), Read(1), Tick(grace),
                  Check(0), Claim(1), Fail(0)]
    ensures Time(grace, h, 7) == Time(grace, h, 3)
    ensures After(grace, h).status == Failed && In(After(grace, h), 1, Live)
  {
    hide After;
    hide Run;
    hide OneAtATime;
    var claimed := ClaimedAfterCheck(grace);
    h := Extend(grace, claimed, Fail(0));
    assert h[..3] == claimed[..3] && h[..7] == claimed[..7];
  }

  /** The same gap reaches a session that a save without expiry has left reconnecting. */
  lemma UnscheduledSaveFailed(grace: nat) returns (h: seq<Step>)
    ensures Run(grace, h) && OneAtATime(grace, h)
    ensures h == [Admit(0), Read(0), Start(0), Close(0), Save(0), Schedule(0), Admit(1), Read(1), Tick(grace),
                  Check(0), Claim(1), Close(1), Save(1), Vanish(1), Fail(0)]
    ensures After(grace, h).status == Failed && LastWrite(h, 12) && In(After(grace, h), 1, Gone)
  {
    hide After;
    hide Run;
    hide OneAtATime;
    h := ClaimedAfterCheck(grace);
    h := Extend(grace, h, Close(1));
    h := Extend(grace, h, Save(1));
    h := Extend(grace, h, Vanish(1));
    h := Extend(grace, h, Fail(0));
  }

  // ----- exactly when the check can pass over a live socket -----

  /** Past reading the record without a claim ahead of it: live already, or about to start. */
  predicate PastRecord(p: Phase) {
    p == Live || p == Connected(false)
  }

  ghost predicate NobodyPast(s: State, c: ConnId) {
    forall d :: d in s.sockets && d != c ==> !PastRecord(s.sockets[d])
  }

  /** `g` goes on from `h`, and there `c`'s reaper passes its check while some socket is live. */
  ghost predicate PassesOverLive(grace: nat, h: seq<Step>, g: seq<Step>, c: ConnId) {
    && h <= g && Run(grace, g)
    && Enabled(After(grace, g), Check(c)) && CheckPasses(After(grace, g), c)
    && exists d :: In(After(grace, g), d, Live)
  }

  /** No read of the record fails from step `i` of `h` on. */
  ghost predicate ReadsSucceed(h: seq<Step>, i: nat) {
    forall k :: i <= k < |h| ==> !h[k].ReadFails?
  }

  ghost predicate ReadFailedAfter(h: seq<Step>, i: nat, d: ConnId) {
    exists m :: i < m < |h| && h[m] == ReadFails(d)
  }

  ghost predicate PastAt(grace: nat, h: seq<Step>, i: nat, d: ConnId)
    requires i <= |h|
  {
    var s := After(grace, h[..i]);
    d in s.sockets && PastRecord(s.sockets[d])
  }

  lemma ReadFailedSnoc(h: seq<Step>, g: seq<Step>, i: nat, d: ConnId)
    requires g <= h && ReadFailedAfter(g, i, d)
    ensures ReadFailedAfter(h, i, d)
  {
    var m :| i < m < |g| && g[m] == ReadFails(d);
    assert h[m] == ReadFails(d);
  }

  /** While a save stands and its key is there, whoever reads the record will claim it before
      starting. So a socket past it was so at the save, or could not read it. */
  lemma {:induction false} PastWhileDue(grace: nat, h: seq<Step>, i: nat, c: ConnId, d: ConnId)
    requires Run(grace, h) && LastSaved(h, i, c) && PastAt(grace, h, |h|, d) && Lookup(After(grace, h)).Some?
    ensures d != c && (PastAt(grace, h, i, d) || ReadFailedAfter(h, i, d))
    decreases |h|
  {
    assert h[..|h|] == h;
    var g, e := Unsnoc(grace, h);
    assert e == h[|h| - 1] && h[..i] == g[..i] && g[..|g|] == g;
    if i == |g| {
      assert PastAt(grace, h, i, d) by {
        assert h[..i] == g;
      }
    } else {
      assert LastSaved(g, i, c);
      RecordFromSave(grace, g, i, c);
      StandsBefore(grace, After(grace, g), e);
      if e == ReadFails(d) {
        SaverIsDone(grace, g, i, c);
        assert ReadFailedAfter(h, i, d);
      } else {
        PastWhileDue(grace, g, i, c, d);
        if ReadFailedAfter(g, i, d) {
          ReadFailedSnoc(h, g, i, d);
        }
      }
    }
  }

  /** A save with its expiry, nothing in between. */
  lemma SavedAtOnce(grace: nat, h: seq<Step>, c: ConnId) returns (g: seq<Step>)
    requires Run(grace, h) && Enabled(After(grace, h), Save(c))
    ensures g == h + [Save(c), Schedule(c)] && Run(grace, g) && (OneAtATime(grace, h) ==> OneAtATime(grace, g))
    ensures var s, t := After(grace, h), After(grace, g);
            && t.now == s.now && t.status == s.status
            && t.record == Some(Record(false, c, Some(s.now + grace + SLACK)))
            && t.sockets == s.sockets[c := Gone] && t.reapers == s.reapers[c := Sleeping(s.now + grace)]
  {
    hide After;
    hide Run;
    hide OneAtATime;
    g := Extend(grace, h, Save(c));
    assert Lookup(After(grace, g)).Some?;
    g := Extend(grace, g, Schedule(c));
  }

  lemma SavedOver(grace: nat, h: seq<Step>, c: ConnId, d: ConnId) returns (g: seq<Step>)
    requires Run(grace, h) && Enabled(After(grace, h), Save(c)) && In(After(grace, h), d, Live)
    ensures g == h + [Save(c), Schedule(c), Tick(grace)] && Run(grace, g)
    ensures OneAtATime(grace, h) ==> OneAtATime(grace, g)
    ensures Enabled(After(grace, g), Check(c)) && CheckPasses(After(grace, g), c) && In(After(grace, g), d, Live)
  {
    hide After;
    hide Run;
    hide OneAtATime;
    g := SavedAtOnce(grace, h, c);
    g := Extend(grace, g, Tick(grace));
  }

  lemma SecondSocketLive(grace: nat, h: seq<Step>, c: ConnId, d: ConnId) returns (g: seq<Step>)
    requires Run(grace, h) && Enabled(After(grace, h), Save(c))
    requires d in After(grace, h).sockets && d != c && PastRecord(After(grace, h).sockets[d])
    ensures PassesOverLive(grace, h + [Save(c)], g, c) && ReadsSucceed(g, |h|)
  {
    hide After;
    hide Run;
    hide OneAtATime;
    g := SavedAtOnce(grace, h, c);
    if After(grace, h).sockets[d] == Connected(false) {
      g := Extend(grace, g, Start(d));
    }
    g := Extend(grace, g, Tick(grace));
    assert In(After(grace, g), d, Live);
  }

  /** A passing check after `h + [Save(c)]` and the save it goes by. */
  lemma PassedSave(grace: nat, h: seq<Step>, g: seq<Step>, c: ConnId)
    requires Run(grace, h) && PassesOverLive(grace, h + [Save(c)], g, c)
    ensures |h| < |g| && LastSaved(g, |h|, c) && g[..|h|] == h && Lookup(After(grace, g)).Some?
  {
    ReaperPassesIff(grace, g, c);
    hide After;
    hide Run;
    hide Lookup;
    hide CheckPasses;
    hide Enabled;
    var i: nat, j: nat, l: nat :| DueSince(grace, g, i, j, l, c);
    assert g[|h|] == (h + [Save(c)])[|h|] == Save(c);
    SaveTimes(grace, g, i, |h|, c);
    assert g[..|h|] == (h + [Save(c)])[..|h|] == h;
  }

  /** As long as reads of the record succeed, a disconnect's reaper can pass its check with a socket
      live exactly when, at the save, some other socket was live already or had read the record
      and found nothing to claim. */
  lemma {:induction false} PassesOverLiveIff(grace: nat, h: seq<Step>, c: ConnId)
    requires Run(grace, h) && Enabled(After(grace, h), Save(c))
    ensures (exists g :: PassesOverLive(grace, h + [Save(c)], g, c) && ReadsSucceed(g, |h|))
        <==> !NobodyPast(After(grace, h), c)
  {
    if d :| d in After(grace, h).sockets && d != c && PastRecord(After(grace, h).sockets[d]) {
      var g := SecondSocketLive(grace, h, c, d);
    } else {
      forall g | PassesOverLive(grace, h + [Save(c)], g, c) && ReadsSucceed(g, |h|) ensures false {
        PassedSave(grace, h, g, c);
        var d :| In(After(grace, g), d, Live);
        assert g[..|g|] == g;
        PastWhileDue(grace, g, |h|, c, d);
      }
    }
  }

  /** A socket that will be live, or could be admitted or fail to read and then be live. */
  ghost predicate CanGetPast(s: State, c: ConnId) {
    s.status == Open || exists d :: d in s.sockets && d != c && (s.sockets[d].Admitted? || PastRecord(s.sockets[d]))
  }

  lemma {:induction false} StuckWhileDue(grace: nat, h: seq<Step>, i: nat, c: ConnId)
    requires Run(grace, h) && LastSaved(h, i, c) && !CanGetPast(After(grace, h[..i]), c)
    ensures After(grace, h).status != Open
    ensures forall d :: d in After(grace, h).sockets ==>
              !After(grace, h).sockets[d].Admitted? && !PastRecord(After(grace, h).sockets[d])
    decreases |h|
  {
    var g, e := Unsnoc(grace, h);
    hide After;
    hide Run;
    assert e == h[|h| - 1] && h[..i] == g[..i];
    if i == |g| {
      assert h[..i] == g;
    } else {
      assert LastSaved(g, i, c);
      StuckWhileDue(grace, g, i, c);
    }
  }

  lemma {:induction false} FreshId(ids: set<ConnId>) returns (d: ConnId)
    ensures d !in ids && forall x :: x in ids ==> x < d
    decreases ids
  {
    if ids == {} {
      d := 0;
    } else {
      var x :| x in ids;
      var e := FreshId(ids - {x});
      assert ids == (ids - {x}) + {x};
      d := if e > x then e else x + 1;
    }
  }

  /** A socket that cannot read the record starts. */
  lemma StartsUnread(grace: nat, h: seq<Step>, d: ConnId) returns (g: seq<Step>)
    requires Run(grace, h)
    requires if d in After(grace, h).sockets then After(grace, h).sockets[d].Admitted?
             else After(grace, h).status == Open
    ensures h <= g && Run(grace, g) && In(After(grace, g), d, Live)
    ensures var s, t := After(grace, h), After(grace, g);
            t.now == s.now && t.record == s.record && t.reapers == s.reapers
  {
    hide After;
    hide Run;
    hide OneAtATime;
    g := h;
    if d !in After(grace, h).sockets {
      g := Extend(grace, g, Admit(d));
    }
    g := Extend(grace, g, ReadFails(d));
    g := Extend(grace, g, Start(d));
  }

  lemma UnreadSocketLive(grace: nat, h: seq<Step>, c: ConnId, d: ConnId) returns (g: seq<Step>)
    requires Run(grace, h) && Enabled(After(grace, h), Save(c)) && d != c
    requires if d in After(grace, h).sockets then After(grace, h).sockets[d].Admitted?
             else After(grace, h).status == Open
    ensures PassesOverLive(grace, h + [Save(c)], g, c)
  {
    hide After;
    hide Run;
    hide OneAtATime;
    var saved := SavedAtOnce(grace, h, c);
    g := StartsUnread(grace, saved, d);
    g := Extend(grace, g, Tick(grace));
    assert h + [Save(c)] <= saved;
    assert In(After(grace, g), d, Live);
  }

  /** When reads may fail too, it can so exactly when the session is still open at the save, or some
      other socket has been admitted and not read the record, or is past it. */
  lemma {:induction false} PassesOverAnyLiveIff(grace: nat, h: seq<Step>, c: ConnId)
    requires Run(grace, h) && Enabled(After(grace, h), Save(c))
    ensures (exists g :: PassesOverLive(grace, h + [Save(c)], g, c)) <==> CanGetPast(After(grace, h), c)
  {
    var s := After(grace, h);
    if CanGetPast(s, c) {
      if d :| d in s.sockets && d != c && PastRecord(s.sockets[d]) {
        var g := SecondSocketLive(grace, h, c, d);
      } else if d :| d in s.sockets && d != c && s.sockets[d].Admitted? {
        var g := UnreadSocketLive(grace, h, c, d);
      } else {
        var d := FreshId(s.sockets.Keys);
        var g := UnreadSocketLive(grace, h, c, d);
      }
    } else {
      forall g | PassesOverLive(grace, h + [Save(c)], g, c) ensures false {
        PassedSave(grace, h, g, c);
        StuckWhileDue(grace, g, |h|, c);
      }
    }
  }

  /** Two sockets open at once are enough: the second starts without claiming, so the first
      one's reaper fails it. */
  lemma SecondSocketIsNotSeen(grace: nat) returns (h: seq<Step>)
    ensures Run(grace, h)
    ensures h == [Admit(0), Read(0), Start(0), Admit(1), Read(1), Start(1), Close(0), Save(0),
                  Schedule(0), Tick(grace)]
    ensures Enabled(After(grace, h), Check(0)) && CheckPasses(After(grace, h), 0) && In(After(grace, h), 1, Live)
  {
    hide After;
    hide Run;
    hide OneAtATime;
    h := FirstSocketLive(grace);
    h := Extend(grace, h, Admit(1));
    h := Extend(grace, h, Read(1));
    h := Extend(grace, h, Start(1));
    h := Extend(grace, h, Close(0));
    h := SavedOver(grace, h, 0, 1);
  }

  // ----- one open socket at a time -----

  lemma OpensByAdmission(grace: nat, s: State, e: Step)
    requires Enabled(s, e)
    ensures var t := Apply(grace, s, e);
            forall d :: d in t.sockets && IsOpen(t.sockets[d]) ==>
                e == Admit(d) || (d in s.sockets && IsOpen(s.sockets[d]))
  {
  }

  lemma {:induction false} OthersClosed(grace: nat, h: seq<Step>, c: ConnId)
    requires Run(grace, h) && OneAtATime(grace, h)
    requires c in After(grace, h).sockets && IsOpen(After(grace, h).sockets[c])
    ensures OnlySocket(After(grace, h), c)
    decreases |h|
  {
    var g, e := Unsnoc(grace, h);
    assert g == h[..|h| - 1] && e == h[|h| - 1];
    hide Apply;
    hide Enabled;
    var s := After(grace, g);
    OpensByAdmission(grace, s, e);
    if c in s.sockets && IsOpen(s.sockets[c]) {
      OthersClosed(grace, g, c);
    }
  }

  lemma {:induction false} ClosedBefore(grace: nat, h: seq<Step>, c: ConnId) returns (k: nat)
    requires Run(grace, h) && c in After(grace, h).sockets && After(grace, h).sockets[c].Closing?
    ensures k < |h| && h[k] == Close(c)
    decreases |h|
  {
    var g, e := Unsnoc(grace, h);
    assert h[|h| - 1] == e;
    if e == Close(c) {
      k := |g|;
    } else {
      k := ClosedBefore(grace, g, c);
    }
  }

  ghost predicate AdmittedBetween(h: seq<Step>, k: nat, i: nat, d: ConnId) {
    exists m :: k < m < i <= |h| && h[m] == Admit(d)
  }

  /** Whoever is open after a close was admitted after it. */
  lemma {:induction false} AdmittedSince(grace: nat, h: seq<Step>, k: nat, c: ConnId, d: ConnId)
    requires Run(grace, h) && OneAtATime(grace, h) && k < |h| && h[k] == Close(c)
    requires d in After(grace, h).sockets && IsOpen(After(grace, h).sockets[d])
    ensures AdmittedBetween(h, k, |h|, d)
    decreases |h|
  {
    var g, e := Unsnoc(grace, h);
    assert g == h[..|h| - 1] && e == h[|h| - 1];
    if k == |g| {
      OthersClosed(grace, g, c);
      assert false;
    } else if e == Admit(d) {
      assert h[|g|] == Admit(d);
    } else {
      AdmittedSince(grace, g, k, c, d);
      var m :| k < m < |g| && g[m] == Admit(d);
      assert h[m] == Admit(d);
    }
  }

  /** Socket `d` has claimed or started and is not lost since. */
  ghost predicate Began(h: seq<Step>, d: ConnId) {
    exists n :: 0 <= n < |h| && (h[n] == Start(d) || h[n] == Claim(d)) && NotLost(h, n, d)
  }

  ghost predicate NotLost(h: seq<Step>, n: nat, d: ConnId) {
    forall j :: n < j < |h| ==> h[j] != Close(d) && h[j] != Vanish(d)
  }

  lemma {:induction false} LiveIffBegan(grace: nat, h: seq<Step>, d: ConnId)
    requires Run(grace, h)
    ensures In(After(grace, h), d, Live) <==> Began(h, d)
    decreases |h|
  {
    if h == [] {
    } else {
      var g, e := Unsnoc(grace, h);
      assert e == h[|h| - 1];
      LiveIffBegan(grace, g, d);
      if e == Start(d) || e == Claim(d) {
        assert NotLost(h, |g|, d);
      } else {
        BeganSnoc(g, e, d);
        assert h == g + [e];
      }
    }
  }

  lemma BeganSnoc(g: seq<Step>, e: Step, d: ConnId)
    requires e != Start(d) && e != Claim(d)
    ensures Began(g + [e], d) <==> Began(g, d) && e != Close(d) && e != Vanish(d)
  {
    var h := g + [e];
    if n :| 0 <= n < |g| && (g[n] == Start(d) || g[n] == Claim(d)) && NotLost(g, n, d) {
      assert h[n] == g[n];
      assert NotLost(h, n, d) <==> e != Close(d) && e != Vanish(d) by {
        assert h[|g|] == e;
      }
    }
    if n :| 0 <= n < |h| && (h[n] == Start(d) || h[n] == Claim(d)) && NotLost(h, n, d) {
      assert h[|g|] == e && h[n] == g[n];
      assert NotLost(g, n, d) by {
        assert forall j :: n < j < |g| ==> g[j] == h[j];
      }
    }
  }

  /** With one open socket at a time, a socket is live when the check passes exactly when it has
      begun and, since the disconnect, either got past the record between the loss of the old socket
      and its save, or failed to read it after the save. */
  lemma LiveAtCheckIff(grace: nat, h: seq<Step>, c: ConnId) returns (k: nat, i: nat)
    requires Run(grace, h) && OneAtATime(grace, h)
    requires Enabled(After(grace, h), Check(c)) && CheckPasses(After(grace, h), c)
    ensures k < i < |h| && h[k] == Close(c) && LastSaved(h, i, c)
    ensures forall d :: In(After(grace, h), d, Live) <==>
              Began(h, d) && ((AdmittedBetween(h, k, i, d) && PastAt(grace, h, i, d)) || ReadFailedAfter(h, i, d))
  {
    ReaperPassesIff(grace, h, c);
    var j: nat, l: nat;
    i, j, l :| DueSince(grace, h, i, j, l, c);
    PrefixOf(grace, h, i);
    k := ClosedBefore(grace, h[..i], c);
    forall d
      ensures In(After(grace, h), d, Live) <==>
              Began(h, d) && ((AdmittedBetween(h, k, i, d) && PastAt(grace, h, i, d)) || ReadFailedAfter(h, i, d))
    {
      LiveIffBegan(grace, h, d);
      if In(After(grace, h), d, Live) {
        LiveSlipped(grace, h, k, i, c, d);
      }
    }
  }

  lemma LiveSlipped(grace: nat, h: seq<Step>, k: nat, i: nat, c: ConnId, d: ConnId)
    requires Run(grace, h) && OneAtATime(grace, h) && LastSaved(h, i, c) && k < i && h[k] == Close(c)
    requires In(After(grace, h), d, Live) && Lookup(After(grace, h)).Some?
    ensures (AdmittedBetween(h, k, i, d) && PastAt(grace, h, i, d)) || ReadFailedAfter(h, i, d)
  {
    assert h[..|h|] == h;
    PastWhileDue(grace, h, i, c, d);
    if PastAt(grace, h, i, d) {
      PrefixOf(grace, h, i);
      AdmittedSince(grace, h[..i], k, c, d);
      var m :| k < m < i && h[..i][m] == Admit(d);
      assert h[m] == Admit(d);
    }
  }

  /** So with one open socket at a time, a client that comes back only after the save, and whose read
      of the record succeeds, is not live when the check passes. */
  lemma ReaperSparesLiveSocket(grace: nat, h: seq<Step>, k: nat, i: nat, c: ConnId)
    requires Run(grace, h) && OneAtATime(grace, h)
    requires Enabled(After(grace, h), Check(c)) && CheckPasses(After(grace, h), c)
    requires k < i < |h| && h[k] == Close(c) && h[i] == Save(c)
    requires (forall m :: k < m < i ==> !h[m].Admit?) && ReadsSucceed(h, i)
    ensures forall d :: d in After(grace, h).sockets ==> After(grace, h).sockets[d] != Live
  {
    ReaperPassesIff(grace, h, c);
    var m: nat, j: nat, l: nat :| DueSince(grace, h, m, j, l, c);
    SaveTimes(grace, h, i, m, c);
    forall d | d in After(grace, h).sockets ensures After(grace, h).sockets[d] != Live {
      if In(After(grace, h), d, Live) {
        LiveSlipped(grace, h, k, i, c, d);
        assert false;
      }
    }
  }

  // ----- exactly when a prompt return can be missed -----

  ghost predicate NobodyOpen(s: State) {
    forall d :: d in s.sockets ==> !IsOpen(s.sockets[d])
  }

  lemma {:induction false} StaysShut(grace: nat, h: seq<Step>, g: seq<Step>)
    requires h <= g && Run(grace, g) && NobodyOpen(After(grace, h)) && After(grace, h).status != Open
    ensures NobodyOpen(After(grace, g)) && After(grace, g).status != Open
    decreases |g|
  {
    if |g| == |h| {
      assert g == h;
    } else {
      var p, e := Unsnoc(grace, g);
      assert h <= p;
      StaysShut(grace, h, p);
    }
  }

  /** A fresh socket is admitted and reads the record while `c` is closing. */
  lemma ComesBack(grace: nat, h: seq<Step>, c: ConnId, d: ConnId) returns (g: seq<Step>)
    requires Run(grace, h) && OneAtATime(grace, h) && Enabled(After(grace, h), Close(c))
             && After(grace, h).status == Open
    requires d !in After(grace, h).sockets
    ensures g == h + [Close(c), Admit(d), Read(d)] && Run(grace, g) && OneAtATime(grace, g) && d != c
    ensures var s := After(grace, g);
            c in s.sockets && s.sockets[c].Closing? && d in s.sockets && s.sockets[d].Connected?
  {
    OthersClosed(grace, h, c);
    hide After;
    hide Run;
    hide OneAtATime;
    g := Extend(grace, h, Close(c));
    g := Extend(grace, g, Admit(d));
    g := Extend(grace, g, Read(d));
  }

  lemma PromptReturn(grace: nat, h: seq<Step>, c: ConnId) returns (g: seq<Step>)
    requires Run(grace, h) && OneAtATime(grace, h) && Enabled(After(grace, h), Close(c))
             && After(grace, h).status == Open
    ensures PassesOverLive(grace, h + [Close(c)], g, c) && OneAtATime(grace, g) && ReadsSucceed(g, |h|)
  {
    hide After;
    hide Run;
    hide OneAtATime;
    var d := FreshId(After(grace, h).sockets.Keys);
    g := ComesBack(grace, h, c, d);
    var resumed := if After(grace, g).sockets[d] == Connected(true) then Claim(d) else Start(d);
    g := Extend(grace, g, resumed);
    g := SavedOver(grace, g, c, d);
    assert g == h + [Close(c), Admit(d), Read(d), resumed, Save(c), Schedule(c), Tick(grace)];
  }

  /** A client can always be back too soon: from the loss of an only open socket, with one open at a
      time and no read failing, its reaper can pass its check over a live socket exactly when the
      session is still open. */
  lemma {:induction false} PromptReturnMissedIff(grace: nat, h: seq<Step>, c: ConnId)
    requires Run(grace, h) && OneAtATime(grace, h) && Enabled(After(grace, h), Close(c))
    ensures (exists g :: PassesOverLive(grace, h + [Close(c)], g, c) && OneAtATime(grace, g) && ReadsSucceed(g, |h|))
        <==> After(grace, h).status == Open
  {
    if After(grace, h).status == Open {
      var g := PromptReturn(grace, h, c);
    } else {
      OthersClosed(grace, h, c);
      var r := Extend(grace, h, Close(c));
      forall g | PassesOverLive(grace, r, g, c) ensures false {
        StaysShut(grace, r, g);
      }
    }
  }

  /** Saved only after the client was back: one open socket at a time, and the check passes over it. */
  lemma PromptReturnIsNotSeen(grace: nat) returns (h: seq<Step>)
    ensures Run(grace, h) && OneAtATime(grace, h)
    ensures h == [Admit(0), Read(0), Start(0), Close(0), Admit(1), Read(1), Start(1), Save(0), Schedule(0),
                  Tick(grace)]
    ensures Enabled(After(grace, h), Check(0)) && CheckPasses(After(grace, h), 0) && In(After(grace, h), 1, Live)
  {
    hide After;
    hide Run;
    hide OneAtATime;
    h := FirstSocketLive(grace);
    h := Extend(grace, h, Close(0));
    h := Extend(grace, h, Admit(1));
    h := Extend(grace, h, Read(1));
    h := Extend(grace, h, Start(1));
    h := SavedOver(grace, h, 0, 1);
  }

  /** Back after the save, but unable to read it. */
  lemma FailedReadIsNotSeen(grace: nat) returns (h: seq<Step>)
    ensures Run(grace, h) && OneAtATime(grace, h)
    ensures h == [Admit(0), Read(0), Start(0), Close(0), Save(0), Schedule(0), Admit(1), ReadFails(1),
                  Start(1), Tick(grace)]
    ensures Enabled(After(grace, h), Check(0)) && CheckPasses(After(grace, h), 0) && In(After(grace, h), 1, Live)
  {
    hide After;
    hide Run;
    hide OneAtATime;
    h := FirstSocketSaved(grace);
    h := Extend(grace, h, Admit(1));
    h := Extend(grace, h, ReadFails(1));
    h := Extend(grace, h, Start(1));
    h := Extend(grace, h, Tick(grace));
  }

  // ----- the tasks, over the mutable record -----

  class SessionTasks {
    const grace: nat
    var now: nat
    var record: Option<Record>
    var sockets: map<ConnId, Phase>
    var reapers: map<ConnId, Reaper>
    var status: Status

    function View(): State
      reads this
    {
      State(now, record, sockets, reapers, status)
    }

    constructor (grace: nat)
      ensures View() == INITIAL && this.grace == grace
    {
      this.grace := grace;
      now, record, sockets, reapers, status := 0, None, map[], map[], Open;
    }

    /** `hset` of the two fields: an unexpired key keeps its time to live. */
    method HashSet(active: bool, c: ConnId)
      modifies this`record
      ensures record == Some(Rewrite(old(View()), active, c))
    {
      var ttl := None;
      if record.Some? && (record.value.expires.None? || now < record.value.expires.value) {
        ttl := record.value.expires;
      }
      record := Some(Record(active, c, ttl));
    }

    /** A read that raises counts as an empty record. */
    method ReadRecord(c: ConnId, readRaises: bool) returns (isReconnect: bool)
      requires Enabled(View(), Read(c))
      modifies this
      ensures View() == Apply(grace, old(View()), if readRaises then ReadFails(c) else Read(c))
      ensures isReconnect == (!readRaises && Lookup(old(View())).Some? && !Lookup(old(View())).value.active)
    {
      var cached := if readRaises then None else Lookup(View());
      isReconnect := cached.Some? && !cached.value.active;
      sockets := sockets[c := Connected(isReconnect)];
    }

    method ClaimSession(c: ConnId)
      requires Enabled(View(), Claim(c))
      modifies this
      ensures View() == Apply(grace, old(View()), Claim(c))
    {
      HashSet(true, c);
      sockets := sockets[c := Live];
    }

    /** The closing work begins. */
    method SocketLost(c: ConnId)
      requires Enabled(View(), Close(c))
      modifies this
      ensures View() == Apply(grace, old(View()), Close(c))
    {
      sockets := sockets[c := Closing(sockets[c].Live?)];
    }

    /** The first of the two calls of `_save_for_reconnect`; if it raises, the second is not made. */
    method SaveForReconnect(c: ConnId, saveRaises: bool)
      requires Enabled(View(), Save(c))
      modifies this
      ensures View() == Apply(grace, old(View()), if saveRaises then Vanish(c) else Save(c))
    {
      if saveRaises {
        sockets := sockets[c := Gone];
        return;
      }
      HashSet(false, c);
      sockets := sockets[c := Saved];
    }

    /** The second: a key that is there gets its new time to live, and unless the call raises the
        reaper is started. */
    method ExpireAndSchedule(c: ConnId, expireRaises: bool)
      requires Enabled(View(), Schedule(c))
      modifies this
      ensures View() == Apply(grace, old(View()), if expireRaises then Vanish(c) else Schedule(c))
    {
      sockets := sockets[c := Gone];
      if expireRaises {
        return;
      }
      if record.Some? && (record.value.expires.None? || now < record.value.expires.value) {
        record := Some(record.value.(expires := Some(now + grace + SLACK)));
      }
      reapers := reapers[c := Sleeping(now + grace)];
    }

    method MarkFinished(c: ConnId, failed: bool)
      requires Enabled(View(), Finish(c, failed))
      modifies this
      ensures View() == Apply(grace, old(View()), Finish(c, failed))
    {
      status := if failed then Failed else Completed;
      sockets := sockets[c := Ended];
    }

    method DeleteFinishedRecord(c: ConnId, deleteRaises: bool)
      requires Enabled(View(), Clear(c))
      modifies this
      ensures View() == Apply(grace, old(View()), if deleteRaises then Vanish(c) else Clear(c))
    {
      if !deleteRaises {
        record := None;
      }
      sockets := sockets[c := Gone];
    }

    method ReaperWakes(c: ConnId, readRaises: bool)
      requires Enabled(View(), Check(c))
      modifies this
      ensures View() == Apply(grace, old(View()), if readRaises then Abandon(c) else Check(c))
    {
      if readRaises {
        reapers := reapers - {c};
        return;
      }
      var data := Lookup(View());
      if data.None? || data.value.active || data.value.conn != c {
        reapers := reapers - {c};
        return;
      }
      reapers := reapers[c := Passed];
    }

    method ReaperFailsSession(c: ConnId)
      requires Enabled(View(), Fail(c))
      modifies this
      ensures View() == Apply(grace, old(View()), Fail(c))
    {
      status := Failed;
      reapers := reapers[c := Failing];
    }

    method ReaperDeletesRecord(c: ConnId)
      requires Enabled(View(), Delete(c))
      modifies this
      ensures View() == Apply(grace, old(View()), Delete(c))
    {
      record := None;
      reapers := reapers - {c};
    }
  }
}
