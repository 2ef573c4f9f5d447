/** The draft, document and revision tables as one draft request updates them. */
module DraftStore {
  import opened Drafts
  import opened Options

  datatype Reply = Done | NotFound | Closed | WrongVersion | RebaseRequired | Invalid | UnconfirmedRisks

  /** What a request on version `version` of a draft finds: the reasons to refuse it, in order. */
  function Admission(drafts: map<DraftId, Draft>, id: DraftId, version: nat): Reply {
    if id !in drafts then NotFound
    else if drafts[id].status != Open then Closed
    else if drafts[id].version != version then WrongVersion
    else Done
  }

  class Store {
    const rules: Rules
    var drafts: map<DraftId, Draft>
    var live: Live
    var revision: nat

    constructor (rules: Rules, live: Live)
      ensures this.rules == rules && this.live == live && drafts == map[] && revision == 0
    {
      this.rules, this.live, drafts, revision := rules, live, map[], 0;
    }

    /** Drafts past their time expire before a request looks at any. */
    method Load(id: DraftId, version: nat, at: int) returns (r: Reply)
      modifies this`drafts
      ensures drafts == ExpiredDrafts(old(drafts), at) && r == Admission(drafts, id, version)
    {
      drafts := ExpiredDrafts(drafts, at);
      if id !in drafts {
        return NotFound;
      }
      if drafts[id].status != Open {
        return Closed;
      }
      if drafts[id].version != version {
        return WrongVersion;
      }
      return Done;
    }

    /** Writes one surface of the draft; a document the validators refuse is reported. */
    method ApplySurface(d: Draft, s: Surface) returns (ok: bool)
      modifies this`live
      ensures ok <==> ApplyOne(rules, d, s, Some(old(live))).Some?
      ensures ok ==> Some(live) == ApplyOne(rules, d, s, Some(old(live)))
    {
      if s !in d.payload {
        return true;
      }
      var next := rules.stored(s, d.payload[s], live);
      if next.None? {
        return false;
      }
      live := WithDoc(live, s, next.value);
      return true;
    }

    /** Publishes the named version, every surface or none: a stale base, a refused surface or a
        risk that the caller did not confirm takes everything back. */
    method Publish(id: DraftId, version: nat, confirmed: set<string>, at: int) returns (r: Reply)
      modifies this
      ensures var before := ExpiredDrafts(old(drafts), at);
              var admitted := Admission(before, id, version);
              if admitted != Done then r == admitted
              else if StaleSurfaces(rules, before[id], old(live)) != {} then r == RebaseRequired
              else if ApplyAll(rules, before[id], old(live)).None? then r == Invalid
              else if !(rules.risks(before[id].payload, old(live)) <= confirmed) then r == UnconfirmedRisks
              else r == Done
                   && live == ApplyAll(rules, before[id], old(live)).value
                   && drafts == before[id := Next(before[id]).(status := Published)]
                   && revision == old(revision) + 1
      ensures r != Done ==> live == old(live) && revision == old(revision) && drafts == ExpiredDrafts(old(drafts), at)
    {
      r := Load(id, version, at);
      if r != Done {
        return;
      }
      var d := drafts[id];
      if StaleSurfaces(rules, d, live) != {} {
        return RebaseRequired;
      }
      var saved := live;
      var ok := ApplySurface(d, Policy);
      if ok {
        ok := ApplySurface(d, Resources);
      }
      if ok {
        ok := ApplySurface(d, Dns);
      }
      if !ok {
        live := saved;
        return Invalid;
      }
      if !(rules.risks(d.payload, saved) <= confirmed) {
        live := saved;
        return UnconfirmedRisks;
      }
      revision := revision + 1;
      drafts := drafts[id := d.(status := Published, version := d.version + 1)];
    }

    /** Replaces the proposal. Retained surfaces keep their base; added ones take the live etag. */
    method Update(id: DraftId, version: nat, payload: map<Surface, Doc>, at: int) returns (r: Reply)
      modifies this`drafts
      ensures var before := ExpiredDrafts(old(drafts), at);
              var admitted := Admission(before, id, version);
              if admitted != Done then r == admitted && drafts == before
              else if payload == map[] then r == Invalid && drafts == before
              else r == Done
                   && drafts == before[id := Next(before[id]).(payload := payload,
                                                               base := EditedBase(rules, before[id], payload, live))]
    {
      r := Load(id, version, at);
      if r != Done {
        return;
      }
      if payload == map[] {
        return Invalid;
      }
      var d := drafts[id];
      var base := BuildBase(d, payload);
      drafts := drafts[id := d.(payload := payload, base := base, version := d.version + 1)];
    }

    method BuildBase(d: Draft, payload: map<Surface, Doc>) returns (base: map<Surface, Etag>)
      ensures base == EditedBase(rules, d, payload, live)
    {
      ghost var whole := EditedBase(rules, d, payload, live);
      base := map[];
      var todo := payload.Keys;
      while todo != {}
        invariant todo <= payload.Keys
        invariant base == map s | s in whole && s !in todo :: whole[s]
      {
        var s :| s in todo;
        if s in d.payload {
          if s in d.base {
            base := base[s := d.base[s]];
          }
        } else {
          base := base[s := rules.etag(s, DocOf(live, s))];
        }
        todo := todo - {s};
      }
    }

    /** Moves the base to the live etags, after which no surface is stale. */
    method Rebase(id: DraftId, version: nat, at: int) returns (r: Reply)
      modifies this`drafts
      ensures var before := ExpiredDrafts(old(drafts), at);
              r == Admission(before, id, version)
              && drafts == if r != Done then before
                           else before[id := Next(before[id]).(base := EtagsOf(rules, live, before[id].payload.Keys))]
      ensures r == Done ==> StaleSurfaces(rules, drafts[id], live) == {}
    {
      r := Load(id, version, at);
      if r == Done {
        var d := drafts[id];
        drafts := drafts[id := d.(base := EtagsOf(rules, live, d.payload.Keys), version := d.version + 1)];
      }
    }

    method Discard(id: DraftId, version: nat, at: int) returns (r: Reply)
      modifies this`drafts
      ensures var before := ExpiredDrafts(old(drafts), at);
              r == Admission(before, id, version)
              && drafts == if r != Done then before else before[id := Next(before[id]).(status := Discarded)]
    {
      r := Load(id, version, at);
      if r == Done {
        drafts := drafts[id := drafts[id].(status := Discarded, version := drafts[id].version + 1)];
      }
    }
  }
}
