/** Change drafts: optimistic concurrency over the policy, DNS and resource documents. A
    request loads a draft, perhaps reads the live documents, and finally commits against the
    version it loaded; anything may happen in between. */
module Drafts {
  import opened Options

  datatype Surface = Policy | Dns | Resources

  type Doc = nat
  type Etag = nat
  type DraftId = nat

  /** What the ordinary validators and writers do: `stored(surface, proposed, live)` is the
      document a write leaves beside the documents already there, or `None` where validation
      fails; `etag` fingerprints a document; `risks` are the codes a proposal must confirm. */
  datatype Rules = Rules(stored: (Surface, Doc, Live) -> Option<Doc>, etag: (Surface, Doc) -> Etag,
                         risks: (map<Surface, Doc>, Live) -> set<string>)

  datatype Live = Live(policy: Doc, dns: Doc, resources: Doc)

  function DocOf(l: Live, s: Surface): Doc {
    match s case Policy => l.policy case Dns => l.dns case Resources => l.resources
  }

  function WithDoc(l: Live, s: Surface, d: Doc): Live {
    match s
    case Policy => l.(policy := d)
    case Dns => l.(dns := d)
    case Resources => l.(resources := d)
  }

  datatype Status = Open | Published | Discarded | Expired

  /** `payload` has the proposed document of each touched surface, `base` the live etag it was
      based on. */
  datatype Draft = Draft(status: Status, version: nat, payload: map<Surface, Doc>,
                         base: map<Surface, Etag>, expiresAt: int)

  function EtagsOf(rules: Rules, l: Live, surfaces: set<Surface>): map<Surface, Etag> {
    map s | s in surfaces :: rules.etag(s, DocOf(l, s))
  }

  /** Surfaces whose live document changed since the draft was based. */
  function StaleSurfaces(rules: Rules, d: Draft, l: Live): set<Surface> {
    set s | s in d.payload && !(s in d.base && d.base[s] == rules.etag(s, DocOf(l, s)))
  }

  /** The base after an edit: retained surfaces keep theirs, added ones take the live etag. */
  function EditedBase(rules: Rules, d: Draft, payload: map<Surface, Doc>, l: Live): map<Surface, Etag> {
    map s | s in payload && (s in d.payload ==> s in d.base) ::
      if s in d.payload then d.base[s] else rules.etag(s, DocOf(l, s))
  }

  // ----- applying -----

  function ApplyOne(rules: Rules, d: Draft, s: Surface, l: Option<Live>): Option<Live> {
    if l.None? || s !in d.payload then l
    else
      var next := rules.stored(s, d.payload[s], l.value);
      if next.None? then None else Some(WithDoc(l.value, s, next.value))
  }

  /** Every surface, in the order policy, resources, DNS; `None` if one is invalid. */
  function ApplyAll(rules: Rules, d: Draft, l: Live): Option<Live> {
    ApplyOne(rules, d, Dns, ApplyOne(rules, d, Resources, ApplyOne(rules, d, Policy, Some(l))))
  }

  /** The documents the writer of a surface finds: those written before it, and the old rest. */
  function SeenBy(s: Surface, before: Live, after: Live): Live {
    match s
    case Policy => before
    case Resources => before.(policy := after.policy)
    case Dns => after.(dns := before.dns)
  }

  /** `after` has, for each touched surface, what its writer stores for the proposal, and the
      old document of every other. */
  ghost predicate Stores(rules: Rules, d: Draft, before: Live, after: Live) {
    forall s: Surface ::
      if s in d.payload then rules.stored(s, d.payload[s], SeenBy(s, before, after)) == Some(DocOf(after, s))
      else DocOf(after, s) == DocOf(before, s)
  }

  /** Applying yields the documents that store the whole proposal, and fails exactly when there
      are none: a surface that is refused takes every other with it. */
  lemma {:induction false} ApplyAllMeaning(rules: Rules, d: Draft, before: Live, after: Live)
    ensures ApplyAll(rules, d, before) == Some(after) <==> Stores(rules, d, before, after)
  {
    if Stores(rules, d, before, after) {
      StoresEach(rules, d, before, after);
    }
  }

  lemma {:induction false} StoresEach(rules: Rules, d: Draft, before: Live, after: Live)
    requires Stores(rules, d, before, after)
    ensures ApplyOne(rules, d, Policy, Some(before)) == Some(before.(policy := after.policy))
    ensures ApplyOne(rules, d, Resources, Some(before.(policy := after.policy))) == Some(after.(dns := before.dns))
    ensures ApplyOne(rules, d, Dns, Some(after.(dns := before.dns))) == Some(after)
  {
    assert DocOf(after, Policy) == after.policy && DocOf(after, Resources) == after.resources
           && DocOf(after, Dns) == after.dns;
  }

  // ----- states and steps -----

  /** A request in flight: the version its caller named, the draft row it loaded and when, the
      live documents if it read them, and whether its preview found nothing to refuse. */
  datatype Handler = Handler(id: DraftId, named: nat, loaded: Draft, loadedAt: int, read: Option<Live>,
                             previewed: bool)

  datatype State = State(drafts: map<DraftId, Draft>, live: Live, revision: nat, clock: int,
                         handlers: map<nat, Handler>)

  datatype Event =
    | Tick(now: int)
    | OutsideWrite(surface: Surface, doc: Doc)
    | Create(id: DraftId, surfaces: set<Surface>, expiresAt: int)
    | Expire
    | Load(h: nat, draft: DraftId, version: nat)
    | ReadLive(h: nat)
    | Update(h: nat, payload: map<Surface, Doc>)
    | Rebase(h: nat)
    | Preview(h: nat, confirmed: set<string>)
    | Publish(h: nat)
    | Discard(h: nat)
    | GiveUp(h: nat)

  function ExpireOne(d: Draft, at: int): Draft {
    if d.status == Open && d.expiresAt <= at then d.(status := Expired) else d
  }

  function ExpiredDrafts(drafts: map<DraftId, Draft>, at: int): map<DraftId, Draft> {
    map id | id in drafts :: ExpireOne(drafts[id], at)
  }

  /** The request got past the open and version checks, and its conditional update finds an open
      row at the version its caller named. */
  predicate RowUnchanged(s: State, h: nat) {
    h in s.handlers && s.handlers[h].id in s.drafts
    && s.handlers[h].loaded.status == Open && s.handlers[h].loaded.version == s.handlers[h].named
    && s.drafts[s.handlers[h].id].status == Open && s.drafts[s.handlers[h].id].version == s.handlers[h].named
  }

  /** The preview of a publish: nothing stale, nothing invalid, no risk left unconfirmed. */
  predicate MayPreview(rules: Rules, s: State, h: nat, confirmed: set<string>) {
    h in s.handlers
    && s.handlers[h].loaded.status == Open && s.handlers[h].loaded.version == s.handlers[h].named
    && StaleSurfaces(rules, s.handlers[h].loaded, s.live) == {}
    && ApplyAll(rules, s.handlers[h].loaded, s.live).Some?
    && rules.risks(s.handlers[h].loaded.payload, s.live) <= confirmed
  }

  /** The commit of a publish checks everything but the risks again. */
  predicate MayPublish(rules: Rules, s: State, h: nat) {
    RowUnchanged(s, h) && s.handlers[h].previewed
    && StaleSurfaces(rules, s.handlers[h].loaded, s.live) == {}
    && ApplyAll(rules, s.handlers[h].loaded, s.live).Some?
  }

  predicate Enabled(rules: Rules, s: State, e: Event) {
    match e
    case Tick(now) => s.clock <= now
    case OutsideWrite(_, _) => true
    case Create(id, surfaces, _) => id !in s.drafts && surfaces != {}
    case Expire => true
    case Load(h, id, _) => h !in s.handlers && id in s.drafts
    case ReadLive(h) => h in s.handlers
    case Update(h, payload) =>
      RowUnchanged(s, h) && payload != map[]
      && (s.handlers[h].read.Some? || payload.Keys <= s.handlers[h].loaded.payload.Keys)
    case Rebase(h) => RowUnchanged(s, h) && s.handlers[h].read.Some?
    case Preview(h, confirmed) => MayPreview(rules, s, h, confirmed)
    case Publish(h) => MayPublish(rules, s, h)
    case Discard(h) => RowUnchanged(s, h)
    case GiveUp(h) => h in s.handlers
  }

  /** The row the request replaces, one version on. */
  function Next(d: Draft): Draft {
    d.(version := d.version + 1)
  }

  function Replaced(s: State, h: nat, d: Draft): State
    requires h in s.handlers
  {
    s.(drafts := s.drafts[s.handlers[h].id := d], handlers := s.handlers - {h})
  }

  function Apply(rules: Rules, s: State, e: Event): State
    requires Enabled(rules, s, e)
  {
    match e
    case Tick(now) => s.(clock := now)
    case OutsideWrite(surface, doc) => s.(live := WithDoc(s.live, surface, doc), revision := s.revision + 1)
    case Create(id, surfaces, expiresAt) =>
      var payload := map x | x in surfaces :: DocOf(s.live, x);
      s.(drafts := s.drafts[id := Draft(Open, 1, payload, EtagsOf(rules, s.live, surfaces), expiresAt)])
    case Expire => s.(drafts := ExpiredDrafts(s.drafts, s.clock))
    case Load(h, id, version) =>
      var drafts := ExpiredDrafts(s.drafts, s.clock);
      s.(drafts := drafts, handlers := s.handlers[h := Handler(id, version, drafts[id], s.clock, None, false)])
    case ReadLive(h) => s.(handlers := s.handlers[h := s.handlers[h].(read := Some(s.live))])
    case Update(h, payload) =>
      var d := s.handlers[h].loaded;
      var seen := if s.handlers[h].read.Some? then s.handlers[h].read.value else s.live;
      var row := s.drafts[s.handlers[h].id];
      Replaced(s, h, Next(row).(payload := payload, base := EditedBase(rules, d, payload, seen)))
    case Rebase(h) =>
      var d := s.handlers[h].loaded;
      var row := s.drafts[s.handlers[h].id];
      Replaced(s, h, Next(row).(base := EtagsOf(rules, s.handlers[h].read.value, d.payload.Keys)))
    case Preview(h, _) => s.(handlers := s.handlers[h := s.handlers[h].(previewed := true)])
    case Publish(h) =>
      var d := s.handlers[h].loaded;
      var row := s.drafts[s.handlers[h].id];
      Replaced(s, h, Next(row).(status := Published)).(live := ApplyAll(rules, d, s.live).value,
                                                       revision := s.revision + 1)
    case Discard(h) =>
      Replaced(s, h, Next(s.drafts[s.handlers[h].id]).(status := Discarded))
    case GiveUp(h) => s.(handlers := s.handlers - {h})
  }

  ghost predicate Init(s: State) {
    s.drafts == map[] && s.handlers == map[]
  }

  ghost predicate ValidRun(rules: Rules, s: State, events: seq<Event>)
    decreases |events|
  {
    events == [] || (Enabled(rules, s, events[0]) && ValidRun(rules, Apply(rules, s, events[0]), events[1..]))
  }

  ghost function Final(rules: Rules, s: State, events: seq<Event>): State
    requires ValidRun(rules, s, events)
    decreases |events|
  {
    if events == [] then s else Final(rules, Apply(rules, s, events[0]), events[1..])
  }

  // ----- what every step keeps -----

  /** The base has exactly the touched surfaces. */
  ghost predicate BasesOk(s: State) {
    forall id :: id in s.drafts ==> s.drafts[id].base.Keys == s.drafts[id].payload.Keys
  }

  /** A row at the version a request loaded, still open, is the row it loaded. */
  ghost predicate HandlerOk(s: State, h: nat)
    requires h in s.handlers
  {
    var r := s.handlers[h];
    r.id in s.drafts && r.loaded.version <= s.drafts[r.id].version && r.loaded.base.Keys == r.loaded.payload.Keys
    && r.loadedAt <= s.clock && (r.loaded.status == Open ==> r.loadedAt < r.loaded.expiresAt)
    && (r.loaded.version == s.drafts[r.id].version && s.drafts[r.id].status == Open ==> s.drafts[r.id] == r.loaded)
  }

  ghost predicate Inv(s: State) {
    BasesOk(s) && forall h :: h in s.handlers ==> HandlerOk(s, h)
  }

  /** A draft row changes only while open, and then gets a higher version or expires. */
  ghost predicate RowStep(d: Draft, d': Draft) {
    d' == d || (d.status == Open && (d' == d.(status := Expired) || d'.version == d.version + 1))
  }

  lemma RowsStep(rules: Rules, s: State, e: Event, id: DraftId)
    requires Enabled(rules, s, e) && id in s.drafts
    ensures id in Apply(rules, s, e).drafts && RowStep(s.drafts[id], Apply(rules, s, e).drafts[id])
  {
  }

  lemma StepKeepsBases(rules: Rules, s: State, e: Event)
    requires Inv(s) && Enabled(rules, s, e)
    ensures BasesOk(Apply(rules, s, e))
  {
    var s' := Apply(rules, s, e);
    forall id | id in s'.drafts ensures s'.drafts[id].base.Keys == s'.drafts[id].payload.Keys {
      if e.Update? && id == s.handlers[e.h].id { assert HandlerOk(s, e.h); }
      if e.Rebase? && id == s.handlers[e.h].id { assert HandlerOk(s, e.h); }
    }
  }

  lemma StepKeepsHandlers(rules: Rules, s: State, e: Event, h: nat)
    requires Inv(s) && Enabled(rules, s, e) && h in Apply(rules, s, e).handlers
    ensures HandlerOk(Apply(rules, s, e), h)
  {
    if h in s.handlers && !(e.Load? && e.h == h) {
      assert HandlerOk(s, h);
      RowsStep(rules, s, e, s.handlers[h].id);
    }
  }

  lemma {:induction false} RunKeeps(rules: Rules, s: State, events: seq<Event>)
    requires Inv(s) && ValidRun(rules, s, events)
    ensures Inv(Final(rules, s, events))
    decreases |events|
  {
    if events != [] {
      StepKeepsBases(rules, s, events[0]);
      forall h | h in Apply(rules, s, events[0]).handlers ensures HandlerOk(Apply(rules, s, events[0]), h) {
        StepKeepsHandlers(rules, s, events[0], h);
      }
      RunKeeps(rules, Apply(rules, s, events[0]), events[1..]);
    }
  }

  // ----- promises over whole runs -----

  /** What a publish of draft `id` with this payload and base does to a state. */
  ghost predicate Commits(rules: Rules, s: State, s': State, id: DraftId, d: Draft) {
    id in s.drafts && s.drafts[id] == d && d.status == Open
    && s'.drafts == s.drafts[id := d.(status := Published, version := d.version + 1)]
    && s'.revision == s.revision + 1
    && (forall x :: x in d.payload ==> x in d.base && d.base[x] == rules.etag(x, DocOf(s.live, x)))
    && Stores(rules, d, s.live, s'.live)
  }

  lemma {:induction false} PublishCommitsLoaded(rules: Rules, s: State, h: nat)
    requires Inv(s) && Enabled(rules, s, Publish(h))
    ensures Commits(rules, s, Apply(rules, s, Publish(h)), s.handlers[h].id, s.handlers[h].loaded)
  {
    assert HandlerOk(s, h);
    var d := s.handlers[h].loaded;
    ApplyAllMeaning(rules, d, s.live, Apply(rules, s, Publish(h)).live);
    forall x | x in d.payload ensures x in d.base && d.base[x] == rules.etag(x, DocOf(s.live, x)) {
      assert x !in StaleSurfaces(rules, d, s.live);
    }
  }

  /** Whoever saw version `v` of a draft with some payload, and whatever happened since: a later
      publish that names `v` commits exactly that payload, onto live documents whose etags are
      the base seen with it, leaves every other document alone, and bumps the revision once. */
  lemma {:induction false} PublishCommitsNamedVersion(rules: Rules, s0: State, before: seq<Event>, after: seq<Event>,
                                                      id: DraftId, h: nat)
    requires Init(s0) && ValidRun(rules, s0, before) && ValidRun(rules, Final(rules, s0, before), after)
    requires id in Final(rules, s0, before).drafts
    requires var s := Final(rules, Final(rules, s0, before), after);
             Enabled(rules, s, Publish(h)) && s.handlers[h].id == id
             && s.handlers[h].named == Final(rules, s0, before).drafts[id].version
    ensures var seen := Final(rules, s0, before).drafts[id];
            var s := Final(rules, Final(rules, s0, before), after);
            var s' := Apply(rules, s, Publish(h));
            Commits(rules, s, s', id, s.drafts[id]) && s.handlers[h].loadedAt < s.drafts[id].expiresAt
            && s.drafts[id].payload == seen.payload && s.drafts[id].base == seen.base
  {
    var s1 := Final(rules, s0, before);
    RunKeeps(rules, s0, before);
    RunKeeps(rules, s1, after);
    var s := Final(rules, s1, after);
    assert HandlerOk(s, h);
    PublishCommitsLoaded(rules, s, h);
    VersionNamesContents(rules, s1, after, id);
  }

  /** In every run a preview is refused exactly when the loaded row is closed or not the version
      the caller named, a touched document changed since the base, no documents store the whole
      proposal, or a risk is not confirmed. */
  lemma {:induction false} PreviewRefusedExactly(rules: Rules, s0: State, events: seq<Event>, h: nat,
                                                 confirmed: set<string>)
    requires Init(s0) && ValidRun(rules, s0, events) && h in Final(rules, s0, events).handlers
    ensures var s := Final(rules, s0, events);
            var r := s.handlers[h];
            r.loaded.base.Keys == r.loaded.payload.Keys
            && (!Enabled(rules, s, Preview(h, confirmed)) <==>
                r.loaded.status != Open || r.loaded.version != r.named
                || (exists x :: x in r.loaded.payload && r.loaded.base[x] != rules.etag(x, DocOf(s.live, x)))
                || (forall after: Live :: !Stores(rules, r.loaded, s.live, after))
                || exists risk :: risk in rules.risks(r.loaded.payload, s.live) && risk !in confirmed)
  {
    RunKeeps(rules, s0, events);
    var s := Final(rules, s0, events);
    assert HandlerOk(s, h);
    StorableExactly(rules, s.handlers[h].loaded, s.live);
    StaleExactly(rules, s.handlers[h].loaded, s.live);
  }

  lemma {:induction false} StorableExactly(rules: Rules, d: Draft, l: Live)
    ensures ApplyAll(rules, d, l).None? <==> forall after: Live :: !Stores(rules, d, l, after)
  {
    forall after: Live ensures ApplyAll(rules, d, l) == Some(after) <==> Stores(rules, d, l, after) {
      ApplyAllMeaning(rules, d, l, after);
    }
  }

  /** In every run the commit step of a publish is refused exactly when no preview passed, the
      draft row is no longer the one the caller named and loaded, a touched document changed
      since the base, or no documents store the whole proposal. */
  lemma {:induction false} PublishRefusedExactly(rules: Rules, s0: State, events: seq<Event>, h: nat)
    requires Init(s0) && ValidRun(rules, s0, events) && h in Final(rules, s0, events).handlers
    ensures var s := Final(rules, s0, events);
            var r := s.handlers[h];
            r.id in s.drafts && r.loaded.base.Keys == r.loaded.payload.Keys
            && (!Enabled(rules, s, Publish(h)) <==>
                !r.previewed
                || s.drafts[r.id] != r.loaded || r.loaded.status != Open || r.loaded.version != r.named
                || (exists x :: x in r.loaded.payload && r.loaded.base[x] != rules.etag(x, DocOf(s.live, x)))
                || forall after: Live :: !Stores(rules, r.loaded, s.live, after))
  {
    RunKeeps(rules, s0, events);
    var s := Final(rules, s0, events);
    assert HandlerOk(s, h);
    StorableExactly(rules, s.handlers[h].loaded, s.live);
    StaleExactly(rules, s.handlers[h].loaded, s.live);
  }

  lemma {:induction false} StaleExactly(rules: Rules, d: Draft, l: Live)
    requires d.base.Keys == d.payload.Keys
    ensures StaleSurfaces(rules, d, l) != {} <==> exists x :: x in d.payload && d.base[x] != rules.etag(x, DocOf(l, x))
  {
    if x :| x in d.payload && d.base[x] != rules.etag(x, DocOf(l, x)) { assert x in StaleSurfaces(rules, d, l); }
    if StaleSurfaces(rules, d, l) != {} {
      var x :| x in StaleSurfaces(rules, d, l);
    }
  }

  /** Only publishing and outside writers touch the live documents, and only rebasing moves the
      base of a surface the draft keeps. */
  lemma {:induction false} EditsKeepBases(rules: Rules, s0: State, events: seq<Event>, e: Event, id: DraftId,
                                          x: Surface)
    requires Init(s0) && ValidRun(rules, s0, events) && Enabled(rules, Final(rules, s0, events), e)
    requires var s := Final(rules, s0, events);
             id in s.drafts && x in s.drafts[id].payload && x in Apply(rules, s, e).drafts[id].payload
    ensures var s := Final(rules, s0, events);
            var s' := Apply(rules, s, e);
            (!(e.Publish? || e.OutsideWrite?) ==> s'.live == s.live && s'.revision == s.revision)
            && x in s.drafts[id].base && x in s'.drafts[id].base
            && (!(e.Rebase? && s.handlers[e.h].id == id) ==> s'.drafts[id].base[x] == s.drafts[id].base[x])
  {
    RunKeeps(rules, s0, events);
    var s := Final(rules, s0, events);
    StepKeepsBases(rules, s, e);
    if e.Update? { assert HandlerOk(s, e.h); }
    RowsStep(rules, s, e, id);
  }

  /** A draft that is published, discarded or expired never changes again. */
  lemma {:induction false} ClosedNeverChanges(rules: Rules, s: State, events: seq<Event>, id: DraftId)
    requires ValidRun(rules, s, events) && id in s.drafts && s.drafts[id].status != Open
    ensures id in Final(rules, s, events).drafts && Final(rules, s, events).drafts[id] == s.drafts[id]
    decreases |events|
  {
    if events != [] {
      RowsStep(rules, s, events[0], id);
      ClosedNeverChanges(rules, Apply(rules, s, events[0]), events[1..], id);
    }
  }

  /** How often a run publishes one draft. */
  ghost function Publications(rules: Rules, s: State, events: seq<Event>, id: DraftId): nat
    requires ValidRun(rules, s, events)
    decreases |events|
  {
    if events == [] then 0
    else (if events[0].Publish? && s.handlers[events[0].h].id == id then 1 else 0)
         + Publications(rules, Apply(rules, s, events[0]), events[1..], id)
  }

  lemma {:induction false} PublishedAtMostOnce(rules: Rules, s: State, events: seq<Event>, id: DraftId)
    requires ValidRun(rules, s, events)
    ensures Publications(rules, s, events, id) <= 1
    ensures id in s.drafts && s.drafts[id].status != Open ==> Publications(rules, s, events, id) == 0
    decreases |events|
  {
    if events != [] {
      var s' := Apply(rules, s, events[0]);
      PublishedAtMostOnce(rules, s', events[1..], id);
      if id in s.drafts { RowsStep(rules, s, events[0], id); }
    }
  }

  /** Versions never go back, and a row that kept its version kept its contents. */
  lemma {:induction false} VersionNamesContents(rules: Rules, s: State, events: seq<Event>, id: DraftId)
    requires ValidRun(rules, s, events) && id in s.drafts
    ensures id in Final(rules, s, events).drafts && s.drafts[id].version <= Final(rules, s, events).drafts[id].version
    ensures s.drafts[id].version == Final(rules, s, events).drafts[id].version ==>
              Final(rules, s, events).drafts[id].payload == s.drafts[id].payload
              && Final(rules, s, events).drafts[id].base == s.drafts[id].base
    decreases |events|
  {
    if events != [] {
      RowsStep(rules, s, events[0], id);
      VersionNamesContents(rules, Apply(rules, s, events[0]), events[1..], id);
    }
  }
}
