/** The service list of src/service.c and its probe thread, which gives up the mutex while a
    backend looks at a URL.  One step is one section under service_mutex; the steps of the probe
    thread and of the callers interleave freely. */
module ServiceProbe {
  import opened Common

  type Id = nat
  type Url = nat

  datatype Status = Ok | AuthNeeded | NoHandler | Fail

  /** What s_prop_status displays, with the URL the status was computed from. */
  datatype Shown =
    | Initial
    | Scanning
    | Result(url: Option<Url>, status: Status)

  /** A service_t.  `frees` counts the calls of free() on it. */
  datatype Service = Service(
    ref: nat,
    zombie: bool,
    needProbe: bool,
    doProbe: bool,
    url: Option<Url>,
    shown: Shown,
    frees: nat)

  /** Where the probe thread is. */
  datatype Prober =
    | Ready                       // about to scan the list
    | Waiting                     // asleep in hts_cond_wait
    | Probing(id: Id, asked: Url) // in backend_probe, without the mutex

  datatype Table = Table(listed: seq<Id>, svc: map<Id, Service>, prober: Prober)

  function Empty(): Table { Table([], map[], Ready) }

  datatype Step =
    | Create(id: Id, url: Option<Url>, probe: bool) // service_create0
    | SetUrl(id: Id, newUrl: Option<Url>)           // service_set_url
    | Destroy(id: Id)                               // service_destroy
    | Scan                                          // the probe thread looks for work
    | ProbeDone(status: Status)                     // backend_probe has returned
    | Spurious                                      // hts_cond_wait returns without a signal

  predicate Enabled(t: Table, step: Step) {
    match step
    case Create(id, _, _) => id !in t.svc
    case SetUrl(id, _) => id in t.listed
    case Destroy(id) => id in t.listed
    case Scan => t.prober.Ready?
    case ProbeDone(_) => t.prober.Probing?
    case Spurious => t.prober.Waiting?
  }

  function Signal(p: Prober): Prober { if p.Waiting? then Ready else p }

  function Without(s: seq<Id>, id: Id): (r: seq<Id>)
    ensures id !in r
    ensures forall x :: x != id ==> (x in r <==> x in s)
  {
    if s == [] then [] else if s[0] == id then Without(s[1..], id) else [s[0]] + Without(s[1..], id)
  }

  predicate Distinct(s: seq<Id>) {
    forall i, j :: 0 <= i < j < |s| ==> s[i] != s[j]
  }

  /** --s_ref, and free() when it reaches zero. */
  function Unref(s: Service): Service
    requires s.ref > 0
  {
    var r := s.(ref := s.ref - 1);
    if r.ref == 0 then r.(frees := r.frees + 1) else r
  }

  predicate Known(t: Table) {
    forall id :: id in t.listed ==> id in t.svc
  }

  predicate IsFirst(t: Table, from: nat, i: nat, id: Id)
    requires Known(t)
  {
    && from <= i < |t.listed| && t.listed[i] == id && t.svc[id].needProbe
    && forall j :: from <= j < i ==> !t.svc[t.listed[j]].needProbe
  }

  /** The first service on the list that is marked. */
  function FirstMarked(t: Table, from: nat): (r: Option<Id>)
    requires Known(t) && from <= |t.listed|
    ensures r.Some? ==> exists i :: IsFirst(t, from, i, r.value)
    ensures r.None? ==> forall i :: from <= i < |t.listed| ==> !t.svc[t.listed[i]].needProbe
    decreases |t.listed| - from
  {
    if from == |t.listed| then None
    else if t.svc[t.listed[from]].needProbe then
      assert IsFirst(t, from, from, t.listed[from]);
      Some(t.listed[from])
    else
      var r := FirstMarked(t, from + 1);
      assert r.Some? ==> exists i :: IsFirst(t, from, i, r.value) by {
        if r.Some? {
          var i :| IsFirst(t, from + 1, i, r.value);
          assert IsFirst(t, from, i, r.value);
        }
      }
      r
  }

  function Scanned(t: Table): Table
    requires Known(t)
  {
    match FirstMarked(t, 0)
    case None => t.(prober := Waiting)
    case Some(id) =>
      var s := t.svc[id].(needProbe := false);
      match s.url
      case None => t.(svc := t.svc[id := s.(shown := Result(None, Fail))])
      case Some(url) =>
        t.(svc := t.svc[id := s.(ref := s.ref + 1, shown := Scanning)], prober := Probing(id, url))
  }

  function Probed(t: Table, st: Status): Table
    requires t.prober.Probing? && t.prober.id in t.svc && t.svc[t.prober.id].ref > 0
  {
    var id := t.prober.id;
    var s := t.svc[id];
    var s' := if s.zombie then s else s.(shown := Result(Some(t.prober.asked), st));
    t.(svc := t.svc[id := Unref(s')], prober := Ready)
  }

  function Next(t: Table, step: Step): Table
    requires Inv(t) && Enabled(t, step)
  {
    match step
    case Create(id, url, probe) =>
      Table([id] + t.listed, t.svc[id := Service(1, false, probe, probe, url, Initial, 0)],
            Signal(t.prober))
    case SetUrl(id, newUrl) =>
      var s := t.svc[id].(url := newUrl);
      if s.doProbe then
        t.(svc := t.svc[id := s.(needProbe := true)], prober := Signal(t.prober))
      else
        t.(svc := t.svc[id := s])
    case Destroy(id) =>
      t.(listed := Without(t.listed, id), svc := t.svc[id := Unref(t.svc[id].(zombie := true))])
    case Scan => Scanned(t)
    case ProbeDone(st) => Probed(t, st)
    case Spurious => t.(prober := Ready)
  }

  predicate InFlight(t: Table, id: Id) { t.prober.Probing? && t.prober.id == id }

  /** One reference for the list and one for the probe thread; free() exactly when both went. */
  predicate RefsRight(t: Table, id: Id)
    requires id in t.svc
  {
    var s := t.svc[id];
    && s.ref == (if id in t.listed then 1 else 0) + (if InFlight(t, id) then 1 else 0)
    && s.frees == (if s.ref == 0 then 1 else 0)
    && (s.zombie <==> id !in t.listed)
  }

  /** What is displayed for a listed service. */
  predicate ShownRight(t: Table, id: Id)
    requires id in t.svc
  {
    var s := t.svc[id];
    && (s.needProbe ==> s.doProbe)
    && (!s.doProbe ==> s.shown == Initial && !InFlight(t, id))
    && (s.doProbe && !s.needProbe ==>
          if InFlight(t, id) then s.url == Some(t.prober.asked) && s.shown == Scanning
          else s.shown.Result? && s.shown.url == s.url)
  }

  predicate Inv(t: Table) {
    && Distinct(t.listed)
    && Known(t)
    && (t.prober.Probing? ==> t.prober.id in t.svc)
    && (forall id :: id in t.svc ==> RefsRight(t, id))
    && (forall id :: id in t.listed ==> ShownRight(t, id))
    && (t.prober.Waiting? ==> forall id :: id in t.listed ==> !t.svc[id].needProbe)
  }

  lemma {:induction false} WithoutDistinct(s: seq<Id>, id: Id)
    requires Distinct(s)
    ensures Distinct(Without(s, id))
  {
    if s != [] {
      WithoutDistinct(s[1..], id);
      assert s[0] !in s[1..];
    }
  }

  lemma CreateKeepsInv(t: Table, id: Id, url: Option<Url>, probe: bool)
    requires Inv(t) && id !in t.svc
    ensures Inv(Next(t, Create(id, url, probe)))
  {
    var u := Next(t, Create(id, url, probe));
    forall x | x in u.svc
      ensures RefsRight(u, x) && (x in u.listed ==> ShownRight(u, x))
    {
      if x != id {
        assert RefsRight(t, x) && (x in t.listed ==> ShownRight(t, x));
      }
    }
  }

  lemma SetUrlKeepsInv(t: Table, id: Id, newUrl: Option<Url>)
    requires Inv(t) && id in t.listed
    ensures Inv(Next(t, SetUrl(id, newUrl)))
  {
    var u := Next(t, SetUrl(id, newUrl));
    forall x | x in u.svc
      ensures RefsRight(u, x) && (x in u.listed ==> ShownRight(u, x))
    {
      assert RefsRight(t, x) && (x in t.listed ==> ShownRight(t, x));
    }
  }

  lemma DestroyKeepsInv(t: Table, id: Id)
    requires Inv(t) && id in t.listed
    ensures Inv(Next(t, Destroy(id)))
  {
    var u := Next(t, Destroy(id));
    WithoutDistinct(t.listed, id);
    forall x | x in u.svc
      ensures RefsRight(u, x) && (x in u.listed ==> ShownRight(u, x))
    {
      assert RefsRight(t, x) && (x in t.listed ==> ShownRight(t, x));
    }
  }

  lemma ScanKeepsInv(t: Table)
    requires Inv(t) && t.prober.Ready?
    ensures Inv(Scanned(t))
  {
    var u := Scanned(t);
    forall x | x in u.svc
      ensures RefsRight(u, x) && (x in u.listed ==> ShownRight(u, x))
    {
      assert RefsRight(t, x) && (x in t.listed ==> ShownRight(t, x));
    }
  }

  lemma ProbeDoneKeepsInv(t: Table, st: Status)
    requires Inv(t) && t.prober.Probing?
    ensures Inv(Next(t, ProbeDone(st)))
  {
    var u := Next(t, ProbeDone(st));
    forall x | x in u.svc
      ensures RefsRight(u, x) && (x in u.listed ==> ShownRight(u, x))
    {
      assert RefsRight(t, x) && (x in t.listed ==> ShownRight(t, x));
    }
  }

  /** What every step keeps. */
  lemma InvKept(t: Table, step: Step)
    requires Inv(t) && Enabled(t, step)
    ensures Inv(Next(t, step))
  {
    match step
    case Create(id, url, probe) => CreateKeepsInv(t, id, url, probe);
    case SetUrl(id, newUrl) => SetUrlKeepsInv(t, id, newUrl);
    case Destroy(id) => DestroyKeepsInv(t, id);
    case Scan => ScanKeepsInv(t);
    case ProbeDone(st) => ProbeDoneKeepsInv(t, st);
    case Spurious =>
      var u := Next(t, step);
      forall x | x in u.svc
        ensures RefsRight(u, x) && (x in u.listed ==> ShownRight(u, x))
      {
        assert RefsRight(t, x) && (x in t.listed ==> ShownRight(t, x));
      }
  }

  // ---- Runs ------------------------------------------------------------------------------

  predicate Legal(t: Table, steps: seq<Step>)
    requires Inv(t)
    decreases steps
  {
    steps != [] ==>
      Enabled(t, steps[0]) && (InvKept(t, steps[0]); Legal(Next(t, steps[0]), steps[1..]))
  }

  function Run(t: Table, steps: seq<Step>): Table
    requires Inv(t) && Legal(t, steps)
    decreases steps
  {
    if steps == [] then t
    else InvKept(t, steps[0]); Run(Next(t, steps[0]), steps[1..])
  }

  lemma {:induction false} RunKeepsInv(t: Table, steps: seq<Step>)
    requires Inv(t) && Legal(t, steps)
    ensures Inv(Run(t, steps))
    decreases steps
  {
    if steps != [] {
      InvKept(t, steps[0]);
      RunKeepsInv(Next(t, steps[0]), steps[1..]);
    }
  }

  /** Main result: whatever the interleaving, the status shown for a listed, probed service that
      is neither marked nor being looked at was computed from the URL it has now, even if that
      URL changed while a backend was looking at the old one; and a service is freed once, when
      it has been destroyed and the probe thread has let go of it. */
  lemma StatusIsCurrent(steps: seq<Step>, id: Id)
    requires Legal(Empty(), steps)
    requires id in Run(Empty(), steps).svc
    ensures var t := Run(Empty(), steps);
            var s := t.svc[id];
            && (id in t.listed && s.doProbe && !s.needProbe && !InFlight(t, id) ==>
                  s.shown.Result? && s.shown.url == s.url)
            && s.frees == (if id !in t.listed && !InFlight(t, id) then 1 else 0)
  {
    RunKeepsInv(Empty(), steps);
    assert RefsRight(Run(Empty(), steps), id);
  }

  /** The service_t structures a step reads or writes. */
  function Touched(t: Table, step: Step): set<Id>
    requires Enabled(t, step)
  {
    match step
    case Create(_, _, _) => {}
    case SetUrl(id, _) => {id}
    case Destroy(id) => {id}
    case Scan => set id | id in t.listed
    case ProbeDone(_) => {t.prober.id}
    case Spurious => {}
  }

  /** No step uses a service after it was freed. */
  lemma NoUseAfterFree(t: Table, step: Step, id: Id)
    requires Inv(t) && Enabled(t, step) && id in Touched(t, step)
    ensures id in t.svc && t.svc[id].frees == 0 && t.svc[id].ref > 0
  {
    assert RefsRight(t, id);
  }

  lemma DestroyedStep(t: Table, step: Step, id: Id)
    requires Inv(t) && Enabled(t, step)
    requires id in t.svc && t.svc[id].zombie
    ensures var u := Next(t, step);
            && id in u.svc && u.svc[id].zombie
            && u.svc[id].shown == t.svc[id].shown
            && t.svc[id].frees <= u.svc[id].frees
  {
    assert RefsRight(t, id);
  }

  /** A destroyed service is never published again and never comes back. */
  lemma {:induction false} DestroyedStaysSilent(t: Table, steps: seq<Step>, id: Id)
    requires Inv(t) && Legal(t, steps)
    requires id in t.svc && t.svc[id].zombie
    ensures var u := Run(t, steps);
            && id in u.svc && u.svc[id].zombie && id !in u.listed
            && u.svc[id].shown == t.svc[id].shown
            && t.svc[id].frees <= u.svc[id].frees <= 1
    decreases steps
  {
    if steps == [] {
      assert RefsRight(t, id);
    } else {
      InvKept(t, steps[0]);
      DestroyedStep(t, steps[0], id);
      DestroyedStaysSilent(Next(t, steps[0]), steps[1..], id);
    }
  }

  // ---- What the callers asked for --------------------------------------------------------

  /** The URL a service was last given, whether it wants probing, and whether it is destroyed. */
  datatype Wish = Wish(url: Option<Url>, probe: bool, gone: bool)

  /** What the callers see: the list, the newest service first, and their own settings. */
  datatype Wishes = Wishes(listed: seq<Id>, of: map<Id, Wish>)

  function WishesOf(t: Table): Wishes {
    Wishes(t.listed, map id | id in t.svc :: WishOf(t.svc[id]))
  }

  /** The callers' steps, each for itself; the probe thread has no part in them. */
  function Wished(w: Wishes, steps: seq<Step>): Wishes
    decreases steps
  {
    if |steps| == 0 then w else Wished(WishedNext(w, steps[0]), steps[1..])
  }

  function WishedNext(w: Wishes, step: Step): Wishes {
    match step
    case Create(id, url, probe) => Wishes([id] + w.listed, w.of[id := Wish(url, probe, false)])
    case SetUrl(id, url) => if id in w.of then w.(of := w.of[id := w.of[id].(url := url)]) else w
    case Destroy(id) =>
      if id in w.of then
        Wishes(Without(w.listed, id), w.of[id := w.of[id].(gone := true)])
      else w
    case _ => w
  }

  function WishOf(s: Service): Wish { Wish(s.url, s.doProbe, s.zombie) }

  lemma OneWish(t: Table, id: Id, s: Service, u: Table)
    requires u.svc == t.svc[id := s]
    ensures WishesOf(u) == Wishes(u.listed, WishesOf(t).of[id := WishOf(s)])
  {
    var v, w := WishesOf(u).of, WishesOf(t).of[id := WishOf(s)];
    forall x | x in v
      ensures x in w && v[x] == w[x]
    {
    }
    assert v.Keys == w.Keys;
  }

  lemma SameWish(t: Table, id: Id, s: Service, u: Table)
    requires u.svc == t.svc[id := s] && u.listed == t.listed
    requires id in t.svc && WishOf(s) == WishOf(t.svc[id])
    ensures WishesOf(u) == WishesOf(t)
  {
    OneWish(t, id, s, u);
    assert WishesOf(t).of[id] == WishOf(s);
  }

  lemma StepWishes(t: Table, step: Step)
    requires Inv(t) && Enabled(t, step)
    ensures WishesOf(Next(t, step)) == WishedNext(WishesOf(t), step)
  {
    var u := Next(t, step);
    match step
    case Create(id, _, _) => OneWish(t, id, u.svc[id], u);
    case SetUrl(id, _) => OneWish(t, id, u.svc[id], u);
    case Destroy(id) => OneWish(t, id, u.svc[id], u);
    case Scan =>
      match FirstMarked(t, 0) {
        case None =>
        case Some(id) => SameWish(t, id, u.svc[id], u);
      }
    case ProbeDone(_) =>
      assert RefsRight(t, t.prober.id);
      SameWish(t, t.prober.id, u.svc[t.prober.id], u);
    case Spurious =>
  }

  /** After every run list, URLs and marks for probing are as the callers set them last. */
  lemma {:induction false} RunWishes(t: Table, steps: seq<Step>)
    requires Inv(t) && Legal(t, steps)
    ensures WishesOf(Run(t, steps)) == Wished(WishesOf(t), steps)
    decreases steps
  {
    if |steps| > 0 {
      InvKept(t, steps[0]);
      StepWishes(t, steps[0]);
      RunWishes(Next(t, steps[0]), steps[1..]);
    }
  }

  // ---- What the backends answer ----------------------------------------------------------

  /** The status a service with this URL should show. */
  function Expected(answer: Url -> Status, url: Option<Url>): Status {
    match url
    case None => Fail
    case Some(u) => answer(u)
  }

  /** Along the run every probe of a URL returns what `answer` says of it. */
  predicate Answers(answer: Url -> Status, t: Table, steps: seq<Step>)
    requires Inv(t) && Legal(t, steps)
    decreases steps
  {
    |steps| > 0 ==>
      && (steps[0].ProbeDone? ==> steps[0].status == answer(t.prober.asked))
      && (InvKept(t, steps[0]); Answers(answer, Next(t, steps[0]), steps[1..]))
  }

  predicate Truthful(answer: Url -> Status, t: Table) {
    forall id :: id in t.svc && t.svc[id].shown.Result? ==>
      t.svc[id].shown.status == Expected(answer, t.svc[id].shown.url)
  }

  lemma StepTruthful(answer: Url -> Status, t: Table, step: Step)
    requires Inv(t) && Enabled(t, step) && Truthful(answer, t)
    requires step.ProbeDone? ==> step.status == answer(t.prober.asked)
    ensures Truthful(answer, Next(t, step))
  {
    var u := Next(t, step);
    forall id | id in u.svc && u.svc[id].shown.Result?
      ensures u.svc[id].shown.status == Expected(answer, u.svc[id].shown.url)
    {
      assert id in t.svc ==> RefsRight(t, id);
    }
  }

  lemma {:induction false} RunTruthful(answer: Url -> Status, t: Table, steps: seq<Step>)
    requires Inv(t) && Legal(t, steps) && Answers(answer, t, steps) && Truthful(answer, t)
    ensures Truthful(answer, Run(t, steps))
    decreases steps
  {
    if |steps| > 0 {
      InvKept(t, steps[0]);
      StepTruthful(answer, t, steps[0]);
      RunTruthful(answer, Next(t, steps[0]), steps[1..]);
    }
  }

  /** Main result: in every interleaving a service that is listed, wants probing and is neither
      marked nor being looked at shows what the backend answers for the URL it was given last, and
      a failure if that is none. */
  lemma StatusIsAnswer(answer: Url -> Status, steps: seq<Step>, id: Id)
    requires Legal(Empty(), steps) && Answers(answer, Empty(), steps)
    requires id in Run(Empty(), steps).listed
    ensures var (t, w) := (Run(Empty(), steps), Wished(WishesOf(Empty()), steps));
            && id in t.svc && id in w.of && t.svc[id].doProbe == w.of[id].probe
            && (w.of[id].probe && !t.svc[id].needProbe && !InFlight(t, id) ==>
                  t.svc[id].shown == Result(w.of[id].url, Expected(answer, w.of[id].url)))
  {
    RunKeepsInv(Empty(), steps);
    RunWishes(Empty(), steps);
    RunTruthful(answer, Empty(), steps);
    StatusIsCurrent(steps, id);
    assert id in WishesOf(Run(Empty(), steps)).of;
  }

  /** The probe thread takes up the first marked service of the list, and asks about the URL that
      the service has then. */
  lemma TakesFirstMarked(t: Table)
    requires Inv(t) && Enabled(t, Scan)
    ensures var u := Next(t, Scan);
            match u.prober
            case Waiting => u == t.(prober := Waiting)
                            && forall id :: id in t.listed ==> !t.svc[id].needProbe
            case Ready => exists i :: 0 <= i < |t.listed| && IsFirst(t, 0, i, t.listed[i])
                                      && t.svc[t.listed[i]].url.None?
            case Probing(id, asked) => t.svc[id].url == Some(asked)
                                       && exists i :: IsFirst(t, 0, i, id)
  {
  }

  // ---- Catching up -----------------------------------------------------------------------

  predicate ByProber(step: Step) { step.Scan? || step.ProbeDone? }

  predicate AllByProber(steps: seq<Step>) {
    forall i :: 0 <= i < |steps| ==> ByProber(steps[i])
  }

  function Marked(list: seq<Id>, svc: map<Id, Service>): nat
    requires forall id :: id in list ==> id in svc
  {
    if list == [] then 0
    else (if svc[list[0]].needProbe then 1 else 0) + Marked(list[1..], svc)
  }

  lemma {:induction false} MarkedAfter(list: seq<Id>, svc: map<Id, Service>, id: Id, s: Service)
    requires forall x :: x in list ==> x in svc
    requires Distinct(list)
    ensures id !in list ==> Marked(list, svc[id := s]) == Marked(list, svc)
    ensures id in list && svc[id].needProbe && !s.needProbe ==>
              Marked(list, svc[id := s]) == Marked(list, svc) - 1
    ensures id in list && svc[id].needProbe == s.needProbe ==>
              Marked(list, svc[id := s]) == Marked(list, svc)
  {
    if list != [] {
      assert list[0] !in list[1..];
      MarkedAfter(list[1..], svc, id, s);
    }
  }

  /** A bound on the steps the probe thread can take before it goes to sleep. */
  function ProbeWork(t: Table): nat
    requires Known(t)
  {
    2 * Marked(t.listed, t.svc)
    + match t.prober case Ready => 1 case Waiting => 0 case Probing(_, _) => 2
  }

  lemma ProbeWorkShrinks(t: Table, step: Step)
    requires Inv(t) && Enabled(t, step) && ByProber(step)
    ensures Inv(Next(t, step)) && ProbeWork(Next(t, step)) < ProbeWork(t)
  {
    InvKept(t, step);
    var u := Next(t, step);
    if step.Scan? {
      match FirstMarked(t, 0)
      case None =>
      case Some(id) => MarkedAfter(t.listed, t.svc, id, u.svc[id]);
    } else {
      assert RefsRight(t, t.prober.id);
      MarkedAfter(t.listed, t.svc, t.prober.id, u.svc[t.prober.id]);
    }
  }

  /** When nobody edits the list, the probe thread goes to sleep within ProbeWork steps, and once
      it sleeps every listed service that wants probing shows the result for its URL. */
  lemma {:induction false} ProberCatchesUp(t: Table, steps: seq<Step>)
    requires Inv(t) && Legal(t, steps) && AllByProber(steps)
    ensures var u := Run(t, steps);
            && Inv(u)
            && |steps| <= ProbeWork(t)
            && u.listed == t.listed
            && (u.prober.Waiting? ==>
                  forall id :: id in u.listed && u.svc[id].doProbe ==>
                    u.svc[id].shown.Result? && u.svc[id].shown.url == u.svc[id].url)
    decreases steps
  {
    if steps == [] {
      forall id | id in t.listed && t.svc[id].doProbe && t.prober.Waiting?
        ensures t.svc[id].shown.Result? && t.svc[id].shown.url == t.svc[id].url
      {
        assert ShownRight(t, id);
      }
    } else {
      assert ByProber(steps[0]);
      ProbeWorkShrinks(t, steps[0]);
      ProberCatchesUp(Next(t, steps[0]), steps[1..]);
    }
  }

  /** A prober that is awake always has a step of its own. */
  lemma AwakeProberCanMove(t: Table)
    requires Inv(t) && !t.prober.Waiting?
    ensures exists step :: ByProber(step) && Enabled(t, step)
  {
    if t.prober.Ready? {
      assert ByProber(Scan) && Enabled(t, Scan);
    } else {
      assert ByProber(ProbeDone(Ok)) && Enabled(t, ProbeDone(Ok));
    }
  }

  // ---- The program -----------------------------------------------------------------------

  /** The service list, the heap of service_t and the probe thread's own variables. */
  class ServiceList {
    var services: seq<Id>
    var heap: map<Id, Service>
    var prober: Prober

    ghost function State(): Table
      reads this
    {
      Table(services, heap, prober)
    }

    constructor ()
      ensures State() == Empty() && Inv(State())
    {
      services, heap, prober := [], map[], Ready;
    }

    method ServiceCreate0(id: Id, url: Option<Url>, probe: bool)
      requires Inv(State()) && Enabled(State(), Create(id, url, probe))
      modifies this
      ensures State() == Next(old(State()), Create(id, url, probe)) && Inv(State())
    {
      InvKept(State(), Create(id, url, probe));
      heap := heap[id := Service(1, false, false, false, url, Initial, 0)];
      services := [id] + services;
      heap := heap[id := heap[id].(needProbe := probe, doProbe := probe)];
      CondSignal();
    }

    method CondSignal()
      modifies `prober
      ensures prober == Signal(old(prober))
    {
      if prober == Waiting {
        prober := Ready;
      }
    }

    method ServiceReprobe(id: Id)
      requires id in heap
      modifies this
      ensures services == old(services)
      ensures if old(heap[id].doProbe)
              then heap == old(heap[id := heap[id].(needProbe := true)])
                   && prober == Signal(old(prober))
              else heap == old(heap) && prober == old(prober)
    {
      if !heap[id].doProbe {
        return;
      }
      heap := heap[id := heap[id].(needProbe := true)];
      CondSignal();
    }

    method ServiceSetUrl(id: Id, newUrl: Option<Url>)
      requires Inv(State()) && Enabled(State(), SetUrl(id, newUrl))
      modifies this
      ensures State() == Next(old(State()), SetUrl(id, newUrl)) && Inv(State())
    {
      InvKept(State(), SetUrl(id, newUrl));
      heap := heap[id := heap[id].(url := newUrl)];
      ServiceReprobe(id);
    }

    method Release(id: Id)
      requires id in heap && heap[id].ref > 0
      modifies `heap
      ensures heap == old(heap[id := Unref(heap[id])])
    {
      heap := heap[id := heap[id].(ref := heap[id].ref - 1)];
      if heap[id].ref == 0 {
        heap := heap[id := heap[id].(frees := heap[id].frees + 1)];
      }
    }

    method ServiceDestroy(id: Id)
      requires Inv(State()) && Enabled(State(), Destroy(id))
      modifies this
      ensures State() == Next(old(State()), Destroy(id)) && Inv(State())
    {
      InvKept(State(), Destroy(id));
      assert RefsRight(State(), id);
      services := Without(services, id);
      heap := heap[id := heap[id].(zombie := true)];
      Release(id);
    }

    /** LIST_FOREACH over the services, up to the first one that is marked. */
    method FindMarked() returns (found: Option<Id>)
      requires Known(State())
      ensures found == FirstMarked(State(), 0)
    {
      var i := 0;
      while i < |services|
        invariant 0 <= i <= |services|
        invariant FirstMarked(State(), i) == FirstMarked(State(), 0)
      {
        if heap[services[i]].needProbe {
          return Some(services[i]);
        }
        i := i + 1;
      }
      found := None;
    }

    /** From taking up a marked service to asking the backend, or to the result if it has no URL. */
    method StartProbe(id: Id)
      requires id in heap && heap[id].ref > 0
      modifies this
      ensures services == old(services)
      ensures var s := old(heap[id]).(needProbe := false);
              match s.url
              case None => heap == old(heap)[id := s.(shown := Result(None, Fail))]
                           && prober == old(prober)
              case Some(url) => heap == old(heap)[id := s.(ref := s.ref + 1, shown := Scanning)]
                                && prober == Probing(id, url)
    {
      var s := heap[id];
      s := s.(needProbe := false);
      s := s.(ref := s.ref + 1, shown := Scanning);
      heap := heap[id := s];
      match s.url
      case None =>
        heap := heap[id := s.(shown := Result(None, Fail))];
        Release(id);
      case Some(url) =>
        prober := Probing(id, url);
    }

    /** The probe loop from the scan of the list to the point where it gives up the mutex or
        starts over. */
    method ProbeScan()
      requires Inv(State()) && Enabled(State(), Scan)
      modifies this
      ensures State() == Next(old(State()), Scan) && Inv(State())
    {
      InvKept(State(), Scan);
      var found := FindMarked();
      match found
      case None =>
        prober := Waiting;
      case Some(id) =>
        assert RefsRight(State(), id);
        StartProbe(id);
    }

    /** The probe loop from the return of backend_probe to the next scan. */
    method ProbeFinish(st: Status)
      requires Inv(State()) && Enabled(State(), ProbeDone(st))
      modifies this
      ensures State() == Next(old(State()), ProbeDone(st)) && Inv(State())
    {
      InvKept(State(), ProbeDone(st));
      var id := prober.id;
      assert RefsRight(State(), id);
      if !heap[id].zombie {
        heap := heap[id := heap[id].(shown := Result(Some(prober.asked), st))];
      }
      Release(id);
      prober := Ready;
    }
  }
}
