/**
 One camera reader, any number of viewers, one condition variable: `internal/camera/broadcaster.go`.
 Every step below is one atomic stretch of one goroutine. Besides its own goroutine a waiting viewer
 has a helper that broadcasts when the viewer's request is cancelled.
 */
module Viewers {
  import opened Basics
  import opened Framing

  /**
   Where a viewer's goroutine stands: outside `waitNextFrame`, wanting the lock for the first time, about
   to compare sequence numbers, about to read `ctx.Err()`, about to wait (these three hold the lock),
   asleep, woken and wanting the lock again, out of its loop and still counted, or gone.
   */
  datatype Place = Outside | Wanting | Comparing | Asking | Parking | Asleep | Woken | Leaving | Gone {
    predicate HoldsLock() {
      Comparing? || Asking? || Parking?
    }

    predicate Out() {
      Outside? || Leaving? || Gone?
    }
  }

  datatype Helper = Off | Armed | Fired

  /** A frame as delivered: its bytes, its sequence number, and how many frames were published by then. */
  datatype Delivery = Delivery(frame: Frame, seqNo: nat, count: nat)

  datatype Viewer = Viewer(place: Place, lastSeq: nat, cancelled: bool, helper: Helper, got: seq<Delivery>) {
    function Count(): nat {
      if got == [] then 0 else got[|got| - 1].count
    }
  }

  const NEWCOMER := Viewer(Outside, 0, false, Off, [])

  /** `count` is the number of viewers the server shows. */
  datatype Hub = Hub(published: seq<Frame>, lock: Option<nat>, viewers: map<nat, Viewer>, count: nat) {
    /** The 64-bit frame counter. */
    function FrameSeq(): nat {
      |published| % TWO_64
    }

    function Place(v: nat): Place {
      if v in viewers then viewers[v].place else Gone
    }
  }

  const EMPTY_HUB := Hub([], None, map[], 0)

  datatype Move =
    | Publish(frame: Frame)   // publishFrame, with its broadcast
    | Broadcast               // setConnected, setDisconnected, or the helper of a wait that is over
    | Join(v: nat)            // a viewer connects and is counted
    | Call(v: nat)            // it calls waitNextFrame, which starts a helper
    | Lock(v: nat)            // it gets the lock, for the first time or after a wake-up
    | Compare(v: nat)         // it compares sequence numbers, and returns the frame if they differ
    | Ask(v: nat)             // it reads ctx.Err(), and returns if cancelled
    | Park(v: nat)            // cond.Wait gives up the lock and sleeps
    | Cancel(v: nat)          // its request is cancelled
    | Fire(v: nat)            // its helper takes the lock and broadcasts
    | GiveUp(v: nat)          // a write to it fails, or it cannot be streamed to
    | Remove(v: nat)          // it is no longer counted

  predicate Enabled(h: Hub, m: Move) {
    match m
    case Publish(_) => h.lock.None?
    case Broadcast => h.lock.None?
    case Join(v) => h.lock.None? && v !in h.viewers
    case Call(v) => h.Place(v).Outside?
    case Lock(v) => h.lock.None? && (h.Place(v).Wanting? || h.Place(v).Woken?)
    case Compare(v) => h.Place(v).Comparing?
    case Ask(v) => h.Place(v).Asking?
    case Park(v) => h.Place(v).Parking?
    case Cancel(v) => v in h.viewers
    case Fire(v) => h.lock.None? && v in h.viewers && h.viewers[v].cancelled && h.viewers[v].helper.Armed?
    case GiveUp(v) => h.Place(v).Outside?
    case Remove(v) => h.lock.None? && h.Place(v).Leaving?
  }

  function WakeAll(viewers: map<nat, Viewer>): map<nat, Viewer> {
    map v | v in viewers :: if viewers[v].place.Asleep? then viewers[v].(place := Woken) else viewers[v]
  }

  function Make(h: Hub, m: Move): Hub
    requires Enabled(h, m)
  {
    var vs := h.viewers;
    match m
    case Publish(frame) => h.(published := h.published + [frame], viewers := WakeAll(vs))
    case Broadcast => h.(viewers := WakeAll(vs))
    case Join(v) => h.(viewers := vs[v := NEWCOMER], count := h.count + 1)
    case Call(v) => h.(viewers := vs[v := vs[v].(place := Wanting, helper := Armed)])
    case Lock(v) => h.(lock := Some(v), viewers := vs[v := vs[v].(place := Comparing)])
    case Compare(v) =>
      if h.FrameSeq() == vs[v].lastSeq then h.(viewers := vs[v := vs[v].(place := Asking)])
      else
        var frame := if h.published == [] then [] else h.published[|h.published| - 1];
        var delivery := Delivery(frame, h.FrameSeq(), |h.published|);
        h.(lock := None,
           viewers := vs[v := vs[v].(place := Outside, helper := Off, lastSeq := h.FrameSeq(),
                                     got := vs[v].got + [delivery])])
    case Ask(v) =>
      if vs[v].cancelled then h.(lock := None, viewers := vs[v := vs[v].(place := Leaving, helper := Off)])
      else h.(viewers := vs[v := vs[v].(place := Parking)])
    case Park(v) => h.(lock := None, viewers := vs[v := vs[v].(place := Asleep)])
    case Cancel(v) => h.(viewers := vs[v := vs[v].(cancelled := true)])
    case Fire(v) => h.(viewers := WakeAll(vs[v := vs[v].(helper := Fired)]))
    case GiveUp(v) => h.(viewers := vs[v := vs[v].(place := Leaving)])
    case Remove(v) => h.(viewers := vs[v := vs[v].(place := Gone)], count := if h.count > 0 then h.count - 1 else 0)
  }

  function After(ms: seq<Move>): Hub {
    if ms == [] then EMPTY_HUB else
      var before := After(ms[..|ms| - 1]);
      if Enabled(before, ms[|ms| - 1]) then Make(before, ms[|ms| - 1]) else before
  }

  predicate Run(ms: seq<Move>) {
    ms == [] || (Run(ms[..|ms| - 1]) && Enabled(After(ms[..|ms| - 1]), ms[|ms| - 1]))
  }

  // ---- No lost wake-up

  /** What holds of one viewer, given who has the lock and the current sequence number. */
  predicate Sound(h: Hub, v: nat, x: Viewer) {
    && (x.place.HoldsLock() <==> h.lock == Some(v))
    && (x.place.Asking? || x.place.Parking? || x.place.Asleep? ==> h.FrameSeq() == x.lastSeq)
    && (x.helper.Fired? ==> x.cancelled)
    && (x.place.Wanting? || x.place.Woken? || x.place.Comparing? || x.place.Asking? ==> !x.helper.Off?)
    && (x.place.Parking? || x.place.Asleep? ==> x.helper.Armed?)
  }

  predicate AllSound(h: Hub) {
    && (h.lock.Some? ==> h.lock.value in h.viewers)
    && forall v :: v in h.viewers ==> Sound(h, v, h.viewers[v])
  }

  lemma SoundMove(h: Hub, m: Move)
    requires Enabled(h, m) && AllSound(h)
    ensures AllSound(Make(h, m))
  {
    var h' := Make(h, m);
    forall v | v in h'.viewers
      ensures Sound(h', v, h'.viewers[v])
    {
      assert v in h.viewers ==> Sound(h, v, h.viewers[v]);
    }
  }

  lemma {:induction false} SoundRun(ms: seq<Move>)
    requires Run(ms)
    ensures AllSound(After(ms))
  {
    if ms == [] {
    } else {
      SoundRun(ms[..|ms| - 1]);
      SoundMove(After(ms[..|ms| - 1]), ms[|ms| - 1]);
    }
  }

  /**
   A sleeping viewer has nothing to fetch, and if its request is cancelled its helper has yet to broadcast,
   which it can do as soon as the lock is free.
   */
  lemma NoLostWakeUp(ms: seq<Move>, v: nat)
    requires Run(ms) && After(ms).Place(v).Asleep?
    ensures var h := After(ms);
            && h.FrameSeq() == h.viewers[v].lastSeq
            && (h.viewers[v].cancelled && h.lock.None? ==> Enabled(h, Fire(v)) && Make(h, Fire(v)).Place(v).Woken?)
            && (h.lock.None? ==> forall frame :: Make(h, Publish(frame)).Place(v).Woken?)
  {
    SoundRun(ms);
    assert Sound(After(ms), v, After(ms).viewers[v]);
  }

  // ---- A viewer with a reason to return can always return

  /** It is inside `waitNextFrame` although there is a new frame or its request is cancelled. */
  predicate Urgent(h: Hub, v: nat) {
    && !h.Place(v).Out()
    && (h.viewers[v].cancelled || h.FrameSeq() != h.viewers[v].lastSeq)
  }

  /** A move of a goroutine that is already inside a wait: no new frame, viewer, call or cancellation. */
  predicate UnderWay(m: Move) {
    m.Lock? || m.Compare? || m.Ask? || m.Park? || m.Fire?
  }

  /** Within `n` moves by goroutines already under way, with no new frame, the viewer is out of `waitNextFrame`. */
  ghost predicate CanReturn(h: Hub, v: nat, n: nat)
    decreases n
  {
    || h.Place(v).Out()
    || (n > 0 && exists m: Move :: UnderWay(m) && Enabled(h, m) && CanReturn(Make(h, m), v, n - 1))
  }

  function OwnSteps(p: Place): nat {
    match p
    case Asking => 1
    case Comparing => 2
    case Woken => 3
    case Wanting => 3
    case Asleep => 4
    case Parking => 5
    case _ => 0
  }

  /** Moves until the viewer returns: first whoever has the lock must let go of it. */
  function Distance(h: Hub, v: nat): nat {
    OwnSteps(h.Place(v)) +
    if h.lock.None? || h.lock == Some(v) then 0
    else match h.Place(h.lock.value)
         case Comparing => 3
         case Asking => 2
         case _ => 1
  }

  function NextMove(h: Hub, v: nat): Move {
    var u := if h.lock.Some? then h.lock.value else v;
    match h.Place(u)
    case Comparing => Compare(u)
    case Asking => Ask(u)
    case Parking => Park(u)
    case Asleep => Fire(u)
    case _ => Lock(u)
  }

  lemma OneMoveCloser(h: Hub, v: nat)
    requires AllSound(h) && Urgent(h, v)
    ensures var m := NextMove(h, v);
            && Enabled(h, m) && UnderWay(m)
            && (Make(h, m).Place(v).Out() ||
                (Urgent(Make(h, m), v) && Distance(Make(h, m), v) < Distance(h, v)))
  {
    assert Sound(h, v, h.viewers[v]);
    if h.lock.Some? {
      assert Sound(h, h.lock.value, h.viewers[h.lock.value]);
    }
  }

  lemma {:induction false} Returns(h: Hub, v: nat, n: nat)
    requires AllSound(h) && Urgent(h, v) && Distance(h, v) <= n
    ensures CanReturn(h, v, n)
    decreases n
  {
    var m := NextMove(h, v);
    OneMoveCloser(h, v);
    SoundMove(h, m);
    if Urgent(Make(h, m), v) { Returns(Make(h, m), v, n - 1); }
    assert n > 0 && CanReturn(Make(h, m), v, n - 1);
  }

  /** In every run, a viewer with a new frame to fetch or a cancelled request is at most seven moves from returning. */
  lemma NoViewerStuck(ms: seq<Move>, v: nat)
    requires Run(ms) && Urgent(After(ms), v)
    ensures CanReturn(After(ms), v, 7)
  {
    SoundRun(ms);
    assert Sound(After(ms), v, After(ms).viewers[v]);
    Returns(After(ms), v, 7);
  }

  // ---- What a viewer sees

  predicate Genuine(published: seq<Frame>, d: Delivery) {
    && 0 < d.count <= |published|
    && d.frame == published[d.count - 1] && d.seqNo == d.count % TWO_64
  }

  predicate Refines(h: Hub, x: Viewer) {
    && x.lastSeq == x.Count() % TWO_64
    && (forall i :: 0 <= i < |x.got| ==> Genuine(h.published, x.got[i]))
    && (forall i, j :: 0 <= i < j < |x.got| ==> x.got[i].count < x.got[j].count)
  }

  lemma RefinesMove(h: Hub, m: Move)
    requires Enabled(h, m) && forall v :: v in h.viewers ==> Refines(h, h.viewers[v])
    ensures var h' := Make(h, m); forall v :: v in h'.viewers ==> Refines(h', h'.viewers[v])
  {
    var h' := Make(h, m);
    forall v | v in h'.viewers
      ensures Refines(h', h'.viewers[v])
    {
      if v in h.viewers { RefinesOne(h, m, v); }
    }
  }

  lemma RefinesOne(h: Hub, m: Move, v: nat)
    requires Enabled(h, m) && v in h.viewers && Refines(h, h.viewers[v])
    ensures v in Make(h, m).viewers && Refines(Make(h, m), Make(h, m).viewers[v])
  {
    var x, h' := h.viewers[v], Make(h, m);
    if m == Compare(v) && h.FrameSeq() != x.lastSeq {
      DeliversLast(h, v);
    } else {
      assert h'.viewers[v].got == x.got && h'.viewers[v].lastSeq == x.lastSeq && h.published <= h'.published;
    }
  }

  lemma DeliversLast(h: Hub, v: nat)
    requires Enabled(h, Compare(v)) && Refines(h, h.viewers[v]) && h.FrameSeq() != h.viewers[v].lastSeq
    ensures var x, h' := h.viewers[v], Make(h, Compare(v));
            && h.published != [] && x.Count() < |h.published| && h'.viewers[v].place.Outside?
            && h'.viewers[v].got == x.got + [Delivery(h.published[|h.published| - 1], h.FrameSeq(), |h.published|)]
            && Refines(h', h'.viewers[v])
  {
  }

  lemma {:induction false} RefinesRun(ms: seq<Move>)
    requires Run(ms)
    ensures forall v :: v in After(ms).viewers ==> Refines(After(ms), After(ms).viewers[v])
  {
    if ms == [] {
    } else {
      RefinesRun(ms[..|ms| - 1]);
      RefinesMove(After(ms[..|ms| - 1]), ms[|ms| - 1]);
    }
  }

  /**
   A viewer sees published frames, each whole and none twice, in order; before the counter wraps, the
   number it sees with a frame is the frame's place in the published sequence, and a viewer asleep has
   seen the newest.
   */
  lemma StreamsRefineLog(ms: seq<Move>, v: nat)
    requires Run(ms) && v in After(ms).viewers
    ensures var h, x := After(ms), After(ms).viewers[v];
            && (forall i :: 0 <= i < |x.got| ==> Genuine(h.published, x.got[i]))
            && (forall i, j :: 0 <= i < j < |x.got| ==> x.got[i].count < x.got[j].count)
            && (|h.published| < TWO_64 ==>
                  && (forall i :: 0 <= i < |x.got| ==> x.got[i].seqNo == x.got[i].count)
                  && (x.place.Asleep? ==> x.Count() == |h.published|))
  {
    RefinesRun(ms);
    SoundRun(ms);
    var h, x := After(ms), After(ms).viewers[v];
    assert Sound(h, v, x);
    if |h.published| < TWO_64 { BeforeWrap(h, v, x); }
  }

  lemma BeforeWrap(h: Hub, v: nat, x: Viewer)
    requires Sound(h, v, x) && Refines(h, x) && |h.published| < TWO_64
    ensures forall i :: 0 <= i < |x.got| ==> x.got[i].seqNo == x.got[i].count
    ensures x.place.Asleep? ==> x.Count() == |h.published|
  {
    SmallModulus(|h.published|);
    SmallModulus(x.Count());
    forall i | 0 <= i < |x.got|
      ensures x.got[i].seqNo == x.got[i].count
    {
      assert Genuine(h.published, x.got[i]);
      SmallModulus(x.got[i].count);
    }
  }

  lemma SmallModulus(n: nat)
    requires n < TWO_64
    ensures n % TWO_64 == n
  {
  }

  /** A delivery is the newest frame at the moment it is made. */
  lemma DeliversNewest(ms: seq<Move>, v: nat)
    requires Run(ms) && Enabled(After(ms), Compare(v)) && After(ms).FrameSeq() != After(ms).viewers[v].lastSeq
    ensures var h, x, x' := After(ms), After(ms).viewers[v], Make(After(ms), Compare(v)).viewers[v];
            && h.published != [] && x'.place.Outside?
            && x'.got == x.got + [Delivery(h.published[|h.published| - 1], h.FrameSeq(), |h.published|)]
            && x.Count() < |h.published|
  {
    RefinesRun(ms);
    var h := After(ms);
    assert v in h.viewers && Refines(h, h.viewers[v]);
    DeliversLast(h, v);
  }

  // ---- Nor does anybody keep a viewer from returning

  /** A move of the viewer's own goroutine inside `waitNextFrame`. */
  predicate Own(m: Move, v: nat) {
    m == Lock(v) || m == Compare(v) || m == Ask(v) || m == Park(v)
  }

  /** The reason to return lasts: before the counter wraps nothing takes it away. */
  predicate ReasonLasts(h: Hub, m: Move, v: nat)
    requires Enabled(h, m) && v in h.viewers
  {
    h.viewers[v].cancelled || Make(h, m).published == h.published || Make(h, m).FrameSeq() != h.viewers[v].lastSeq
  }

  /** Whoever moves, an urgent viewer gets out or stays urgent and no further from it; its own moves bring it nearer. */
  lemma StaysUrgent(h: Hub, m: Move, v: nat)
    requires AllSound(h) && Urgent(h, v) && Enabled(h, m) && ReasonLasts(h, m, v)
    ensures var h' := Make(h, m);
            || h'.Place(v).Out()
            || (&& Urgent(h', v) && OwnSteps(h'.Place(v)) + (if Own(m, v) then 1 else 0) <= OwnSteps(h.Place(v))
                && (m == Fire(v) ==> !h'.Place(v).Asleep?))
  {
    assert Sound(h, v, h.viewers[v]);
  }

  lemma BeforeWrapReasonLasts(h: Hub, m: Move, v: nat)
    requires Enabled(h, m) && v in h.viewers && Refines(h, h.viewers[v]) && |Make(h, m).published| < TWO_64
    ensures ReasonLasts(h, m, v)
  {
    var x := h.viewers[v];
    if x.got != [] { assert Genuine(h.published, x.got[|x.got| - 1]); }
    SmallModulus(x.Count());
    SmallModulus(|Make(h, m).published|);
  }

  lemma NoWayBack(h: Hub, m: Move, v: nat)
    requires AllSound(h) && Urgent(h, v) && Enabled(h, m) && Refines(h, h.viewers[v])
    requires |Make(h, m).published| < TWO_64
    ensures var h' := Make(h, m);
            h'.Place(v).Out() ||
            (Urgent(h', v) && OwnSteps(h'.Place(v)) + (if Own(m, v) then 1 else 0) <= OwnSteps(h.Place(v)))
  {
    BeforeWrapReasonLasts(h, m, v);
    StaysUrgent(h, m, v);
  }

  /** Its own moves from the `n`-th on. */
  function OwnMoves(ms: seq<Move>, n: nat, v: nat): nat {
    if |ms| <= n then 0
    else OwnMoves(ms[..|ms| - 1], n, v) + if Own(ms[|ms| - 1], v) then 1 else 0
  }

  predicate OutSince(ms: seq<Move>, n: nat, v: nat) {
    exists m :: n <= m <= |ms| && After(ms[..m]).Place(v).Out()
  }

  lemma PublishedGrows(ms: seq<Move>)
    requires Run(ms) && ms != []
    ensures After(ms[..|ms| - 1]).published <= After(ms).published
  {
    MovePublishes(After(ms[..|ms| - 1]), ms[|ms| - 1]);
  }

  lemma MovePublishes(h: Hub, m: Move)
    requires Enabled(h, m)
    ensures Make(h, m).published == h.published + if m.Publish? then [m.frame] else []
  {
  }

  /**
   In every run and whatever everybody else does: once a viewer has a reason to return, it takes at most
   five moves of its own, until the counter wraps, before it is out of `waitNextFrame`.
   */
  lemma {:induction false} EveryWayOut(ms: seq<Move>, n: nat, v: nat)
    requires Run(ms) && n <= |ms| && Urgent(After(ms[..n]), v) && |After(ms).published| < TWO_64
    ensures OutSince(ms, n, v) ||
            (&& Urgent(After(ms), v)
             && OwnMoves(ms, n, v) + OwnSteps(After(ms).Place(v)) <= OwnSteps(After(ms[..n]).Place(v)))
  {
    if n == |ms| {
      assert ms[..n] == ms;
    } else {
      var before, m := ms[..|ms| - 1], ms[|ms| - 1];
      assert before[..n] == ms[..n];
      PublishedGrows(ms);
      EveryWayOut(before, n, v);
      SoundRun(before);
      RefinesRun(before);
      if i :| n <= i <= |before| && After(before[..i]).Place(v).Out() {
        assert before[..i] == ms[..i];
      } else {
        NoWayBack(After(before), m, v);
        assert ms[..|ms|] == ms;
      }
    }
  }

  /** Put as a bound. */
  lemma FiveMovesAtMost(ms: seq<Move>, n: nat, v: nat)
    requires Run(ms) && n <= |ms| && Urgent(After(ms[..n]), v) && |After(ms).published| < TWO_64
    ensures OutSince(ms, n, v) || OwnMoves(ms, n, v) <= 5
  {
    EveryWayOut(ms, n, v);
  }

  // ---- The count

  function Inside(h: Hub): set<nat> {
    set v | v in h.viewers && !h.viewers[v].place.Gone?
  }

  lemma CountMove(h: Hub, m: Move)
    requires Enabled(h, m) && h.count == |Inside(h)|
    ensures Make(h, m).count == |Inside(Make(h, m))|
  {
    InsideMove(h, m);
    CountStep(h, m);
    if m.Join? || m.Remove? { OneMoreOrLess(Inside(h), m.v); }
  }

  lemma CountStep(h: Hub, m: Move)
    requires Enabled(h, m)
    ensures Make(h, m).count ==
            if m.Join? then h.count + 1 else if m.Remove? && h.count > 0 then h.count - 1 else h.count
  {
  }

  lemma OneMoreOrLess(s: set<nat>, v: nat)
    ensures v !in s ==> |s + {v}| == |s| + 1
    ensures v in s ==> |s - {v}| == |s| - 1
  {
  }

  lemma InsideMove(h: Hub, m: Move)
    requires Enabled(h, m)
    ensures Inside(Make(h, m)) ==
            if m.Join? then Inside(h) + {m.v} else if m.Remove? then Inside(h) - {m.v} else Inside(h)
    ensures m.Join? ==> m.v !in Inside(h)
    ensures m.Remove? ==> m.v in Inside(h)
  {
    forall v
      ensures v in Inside(Make(h, m)) <==> (v in Inside(h) && m != Remove(v)) || m == Join(v)
    {
      if v in h.viewers { assert v in Make(h, m).viewers; }
    }
  }

  /** The number shown is the number of viewers in `ServeHTTP`, in every run; the guard on the count never matters. */
  lemma {:induction false} ViewersCounted(ms: seq<Move>)
    requires Run(ms)
    ensures After(ms).count == |Inside(After(ms))|
    ensures forall v :: Enabled(After(ms), Remove(v)) ==> After(ms).count > 0
  {
    if ms == [] {
      assert Inside(After(ms)) == {};
    } else {
      ViewersCounted(ms[..|ms| - 1]);
      CountMove(After(ms[..|ms| - 1]), ms[|ms| - 1]);
    }
    forall v | Enabled(After(ms), Remove(v))
      ensures After(ms).count > 0
    {
      assert v in Inside(After(ms));
    }
  }

  // ---- The reader's frames

  /** The frames the reader handed over, in order. */
  function Published(ms: seq<Move>): seq<Frame> {
    if ms == [] then [] else
      var before, m := Published(ms[..|ms| - 1]), ms[|ms| - 1];
      if m.Publish? then before + [m.frame] else before
  }

  lemma {:induction false} PublishedLog(ms: seq<Move>)
    requires Run(ms)
    ensures After(ms).published == Published(ms)
  {
    if ms == [] {
    } else {
      PublishedLog(ms[..|ms| - 1]);
      MovePublishes(After(ms[..|ms| - 1]), ms[|ms| - 1]);
    }
  }

  // ---- Why a viewer leaves

  /** It is cancelled exactly if it was told so, leaves only then or when it was given up, and is then removed. */
  predicate Excused(h: Hub, ms: seq<Move>, v: nat)
    requires v in h.viewers
  {
    var x := h.viewers[v];
    && (x.cancelled <==> Cancel(v) in ms)
    && (x.place.Leaving? || x.place.Gone? ==> Cancel(v) in ms || GiveUp(v) in ms)
    && (GiveUp(v) in ms ==> x.place.Leaving? || x.place.Gone?)
    && (x.place.Gone? <==> Remove(v) in ms)
  }

  /** Before it joins nothing happens to it. */
  predicate Unknown(ms: seq<Move>, v: nat) {
    Cancel(v) !in ms && GiveUp(v) !in ms && Remove(v) !in ms
  }

  lemma ExcusedMove(h: Hub, ms: seq<Move>, m: Move, v: nat)
    requires Enabled(h, m) && v in Make(h, m).viewers
    requires if v in h.viewers then Excused(h, ms, v) else Unknown(ms, v)
    ensures Excused(Make(h, m), ms + [m], v)
  {
    assert forall n :: n in ms + [m] <==> n in ms || n == m;
  }

  lemma {:induction false} UnknownBefore(ms: seq<Move>, v: nat)
    requires Run(ms) && v !in After(ms).viewers
    ensures Unknown(ms, v)
  {
    if ms == [] {
    } else {
      var before, m := ms[..|ms| - 1], ms[|ms| - 1];
      assert ms == before + [m];
      assert forall n :: n in ms <==> n in before || n == m;
      StaysKnown(After(before), m, v);
      UnknownBefore(before, v);
    }
  }

  lemma StaysKnown(h: Hub, m: Move, v: nat)
    requires Enabled(h, m)
    ensures v in h.viewers ==> v in Make(h, m).viewers
  {
  }

  /** In every run: nobody leaves but the cancelled and the given up. */
  lemma {:induction false} LeavesForAReason(ms: seq<Move>, v: nat)
    requires Run(ms) && v in After(ms).viewers
    ensures Excused(After(ms), ms, v)
  {
    if ms == [] {
    } else {
      var before, m := ms[..|ms| - 1], ms[|ms| - 1];
      assert ms == before + [m];
      if v in After(before).viewers { LeavesForAReason(before, v); } else { UnknownBefore(before, v); }
      ExcusedMove(After(before), before, m, v);
    }
  }

  /** Since a call made with `got` delivered: still inside with nothing new, or out again with one newer frame. */
  predicate Served(h: Hub, v: nat, got: seq<Delivery>)
    requires v in h.viewers
  {
    var x, last := h.viewers[v], if got == [] then 0 else got[|got| - 1].count;
    if x.place.Out() then |x.got| == |got| + 1 && got <= x.got && last < x.Count() <= |h.published|
    else x.got == got
  }

  lemma ServedMove(h: Hub, m: Move, v: nat, got: seq<Delivery>)
    requires Enabled(h, m) && v in h.viewers && m != Call(v)
    requires Refines(h, h.viewers[v]) && !h.viewers[v].cancelled && Served(h, v, got)
    ensures Served(Make(h, m), v, got)
  {
    MovePublishes(h, m);
  }

  /** A call is this run's `n`-th move, and the viewer's last. */
  predicate LastCall(ms: seq<Move>, n: nat, v: nat) {
    n < |ms| && ms[n] == Call(v) && forall i :: n < i < |ms| ==> ms[i] != Call(v)
  }

  /**
   A viewer that is not cancelled is out of `waitNextFrame` again exactly when it has got a frame, one more
   than when it called and newer than all it had; until then it is kept inside.
   */
  lemma {:induction false} OutExactlyWithFrame(ms: seq<Move>, n: nat, v: nat)
    requires Run(ms) && LastCall(ms, n, v) && Cancel(v) !in ms
    ensures v in After(ms).viewers && v in After(ms[..n]).viewers
    ensures Served(After(ms), v, After(ms[..n]).viewers[v].got)
  {
    var before, m := ms[..|ms| - 1], ms[|ms| - 1];
    assert ms == before + [m];
    if n == |ms| - 1 {
    } else {
      assert before[..n] == ms[..n] && before[n] == ms[n];
      OutExactlyWithFrame(before, n, v);
      LeavesForAReason(before, v);
      RefinesRun(before);
      ServedMove(After(before), m, v, After(ms[..n]).viewers[v].got);
    }
  }

  /** With no new frame and no cancellation, a viewer that calls goes to sleep. */
  lemma NothingNewSleeps(ms: seq<Move>, v: nat) returns (ms': seq<Move>)
    requires Run(ms) && After(ms).lock.None? && After(ms).Place(v).Outside? && !After(ms).viewers[v].cancelled
    requires After(ms).FrameSeq() == After(ms).viewers[v].lastSeq
    ensures ms' == ms + [Call(v)] + [Lock(v)] + [Compare(v)] + [Ask(v)] + [Park(v)]
    ensures Run(ms') && After(ms').Place(v).Asleep?
  {
    ms' := ms;
    ms' := Then(ms', Call(v));
    ms' := Then(ms', Lock(v));
    ms' := Then(ms', Compare(v));
    ms' := Then(ms', Ask(v));
    ms' := Then(ms', Park(v));
  }

  lemma Then(ms: seq<Move>, m: Move) returns (ms': seq<Move>)
    requires Run(ms) && Enabled(After(ms), m)
    ensures ms' == ms + [m] && Run(ms') && After(ms') == Make(After(ms), m)
  {
    ms' := ms + [m];
    assert ms'[..|ms|] == ms;
  }

  /** So the first viewer of a camera that has not sent a frame sleeps. */
  lemma FirstViewerSleeps(v: nat) returns (ms: seq<Move>)
    ensures ms == [Join(v)] + [Call(v)] + [Lock(v)] + [Compare(v)] + [Ask(v)] + [Park(v)]
    ensures Run(ms) && After(ms).Place(v).Asleep?
  {
    ms := Then([], Join(v));
    ms := NothingNewSleeps(ms, v);
  }
}
