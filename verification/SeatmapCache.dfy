/**
 The repository of venue seatmaps: stored versions, which of them is published, and the cache of mobile views.
 Operations run one at a time and no database statement fails; SHA-256 over the hashed fields is a parameter.
 */
module SeatmapCache {
  import opened Options

  type Venue = string
  type Zoom = int

  // -------------------------------------------------------------------- data

  /** `look` stands for the name, type, position and display of a section. */
  datatype Section = Section(id: string, look: string, capacity: int, seats: Option<seq<string>>)

  /** The fields the integrity hash covers. */
  datatype Content = Content(venue: Venue, version: string, sections: seq<Section>, dimensions: string)

  datatype ZoomLevel = ZoomLevel(level: Zoom, showSeatNumbers: bool, showAmenities: bool)

  datatype Seatmap = Seatmap(
    content: Content, stage: Option<string>, zoomLevels: seq<ZoomLevel>, amenities: Option<seq<string>>,
    published: bool, publishedAt: Option<nat>, hash: string)

  datatype MobileSection = MobileSection(
    id: string, look: string, capacity: int, seatCount: nat, seats: Option<seq<string>>)

  datatype MobileView = MobileView(
    venue: Venue, version: string, dimensions: string, stage: Option<string>, sections: seq<MobileSection>,
    amenities: seq<string>, zoom: Zoom)

  datatype CacheKey = CacheKey(venue: Venue, zoom: Zoom)
  datatype CacheEntry = CacheEntry(view: MobileView, expiresAt: nat)

  datatype Error = VersionExists | NotFound | CorruptedData
  datatype Result<T> = Success(value: T) | Failure(error: Error)

  type Digest = Content -> string
  type Documents = seq<Seatmap>
  type Cache = map<CacheKey, CacheEntry>

  // ----------------------------------------------------------------- queries

  predicate Matches(d: Seatmap, venue: Venue, version: string) {
    d.content.venue == venue && d.content.version == version
  }

  /** The first document of this venue and version. */
  function FindVersion(docs: Documents, venue: Venue, version: string): (found: Option<nat>)
    ensures found.Some? ==> found.value < |docs| && Matches(docs[found.value], venue, version)
    ensures found.None? ==> forall i :: 0 <= i < |docs| ==> !Matches(docs[i], venue, version)
  {
    if docs == [] then None
    else
      var found := FindVersion(docs[..|docs| - 1], venue, version);
      if found.None? && Matches(docs[|docs| - 1], venue, version) then Some(|docs| - 1) else found
  }

  /** The order of a descending sort on published_at, where a missing date comes last. */
  predicate Before(a: Option<nat>, b: Option<nat>) {
    b.Some? && (a.None? || a.value < b.value)
  }

  predicate IsPublishedFor(d: Seatmap, venue: Venue) {
    d.content.venue == venue && d.published
  }

  /** The published document of a venue with the latest date. */
  function Latest(docs: Documents, venue: Venue): Option<Seatmap> {
    if docs == [] then None
    else
      var best, d := Latest(docs[..|docs| - 1], venue), docs[|docs| - 1];
      if IsPublishedFor(d, venue) && (best.None? || Before(best.value.publishedAt, d.publishedAt)) then Some(d)
      else best
  }

  predicate PassesCheck(d: Seatmap, digest: Digest) {
    d.hash != "" && digest(d.content) == d.hash
  }

  function GetLatest(docs: Documents, venue: Venue, digest: Digest): Result<Option<Seatmap>> {
    var latest := Latest(docs, venue);
    if latest.Some? && !PassesCheck(latest.value, digest) then Failure(CorruptedData) else Success(latest)
  }

  function FindLevel(levels: seq<ZoomLevel>, zoom: Zoom): Option<ZoomLevel> {
    if levels == [] then None
    else if levels[0].level == zoom then Some(levels[0])
    else FindLevel(levels[1..], zoom)
  }

  function MobileSections(sections: seq<Section>, withSeats: bool): seq<MobileSection> {
    seq(|sections|, i requires 0 <= i < |sections| =>
      var s := sections[i];
      var count := if s.seats.Some? then |s.seats.value| else 0;
      MobileSection(s.id, s.look, s.capacity, count, if withSeats then s.seats else None))
  }

  function Optimize(d: Seatmap, zoom: Zoom): MobileView {
    var level := FindLevel(d.zoomLevels, zoom);
    var amenities := if level.Some? && level.value.showAmenities && d.amenities.Some? then d.amenities.value else [];
    MobileView(d.content.venue, d.content.version, d.content.dimensions, d.stage,
               MobileSections(d.content.sections, level.Some? && level.value.showSeatNumbers), amenities, zoom)
  }

  // ------------------------------------------------------------- the updates

  function Unpublished(docs: Documents, venue: Venue): (r: Documents)
    ensures |r| == |docs|
  {
    seq(|docs|, i requires 0 <= i < |docs| =>
      if IsPublishedFor(docs[i], venue) then docs[i].(published := false) else docs[i])
  }

  function WithPublished(docs: Documents, at: nat, now: nat): Documents
    requires at < |docs|
  {
    docs[at := docs[at].(published := true, publishedAt := Some(now))]
  }

  /** All cache entries but those of the venue. */
  function Invalidated(cache: Cache, venue: Venue): Cache {
    map k | k in cache && k.venue != venue :: cache[k]
  }

  /** The documents after publishing: everything of the venue is unpublished first, found or not. */
  function Published(docs: Documents, venue: Venue, version: string, now: nat): Documents {
    var docs' := Unpublished(docs, venue);
    var at := FindVersion(docs', venue, version);
    if at.Some? then WithPublished(docs', at.value, now) else docs'
  }

  const HOUR := 3600000

  predicate IsFresh(cache: Cache, key: CacheKey, now: nat) {
    key in cache && now <= cache[key].expiresAt
  }

  /** The mobile view as computed without a cache. */
  function Uncached(docs: Documents, key: CacheKey, digest: Digest): Result<MobileView> {
    match GetLatest(docs, key.venue, digest)
    case Failure(e) => Failure(e)
    case Success(None) => Failure(NotFound)
    case Success(Some(d)) => Success(Optimize(d, key.zoom))
  }

  // -------------------------------------------------------------- operations

  datatype State = State(docs: Documents, cache: Cache)

  function SaveStep(s: State, seatmap: Seatmap, digest: Digest): (State, Result<Seatmap>) {
    var withHash := seatmap.(hash := digest(seatmap.content));
    if FindVersion(s.docs, seatmap.content.venue, seatmap.content.version).Some? then (s, Failure(VersionExists))
    else (State(s.docs + [withHash], Invalidated(s.cache, seatmap.content.venue)), Success(withHash))
  }

  /** A missing version is noticed only after the venue has been unpublished, and leaves the cache alone. */
  function PublishStep(s: State, venue: Venue, version: string, now: nat): (State, Result<()>) {
    var docs := Published(s.docs, venue, version, now);
    if FindVersion(s.docs, venue, version).Some? then (State(docs, Invalidated(s.cache, venue)), Success(()))
    else (State(docs, s.cache), Failure(NotFound))
  }

  function MobileStep(s: State, key: CacheKey, now: nat, digest: Digest): (State, Result<MobileView>) {
    if IsFresh(s.cache, key, now) then (s, Success(s.cache[key].view))
    else
      var r := Uncached(s.docs, key, digest);
      (if r.Success? then s.(cache := s.cache[key := CacheEntry(r.value, now + HOUR)]) else s, r)
  }

  // ------------------------------------------------------------ the invariant

  predicate AllPass(docs: Documents, digest: Digest) {
    forall i :: 0 <= i < |docs| ==> PassesCheck(docs[i], digest)
  }

  predicate VersionsUnique(docs: Documents) {
    forall i, j :: 0 <= i < j < |docs| ==> !Matches(docs[i], docs[j].content.venue, docs[j].content.version)
  }

  predicate Sound(docs: Documents, digest: Digest) {
    AllPass(docs, digest) && VersionsUnique(docs)
  }

  /** Each cached view is the one that would be computed now. */
  predicate Coherent(docs: Documents, cache: Cache, digest: Digest) {
    forall k :: k in cache ==> Uncached(docs, k, digest) == Success(cache[k].view)
  }

  /** An entry of the version history; its constant fields are left out. */
  datatype VersionEntry = VersionEntry(venue: Venue, version: string)

  /** The history lists exactly the stored versions, in the order they were saved. */
  predicate Records(history: seq<VersionEntry>, docs: Documents) {
    && |history| == |docs|
    && forall i :: 0 <= i < |docs| ==> history[i] == VersionEntry(docs[i].content.venue, docs[i].content.version)
  }

  class Repository {
    const digest: Digest
    var docs: Documents
    var cache: Cache
    var history: seq<VersionEntry>

    ghost predicate Valid()
      reads this
    {
      Sound(docs, digest) && Records(history, docs)
    }

    ghost function Now(): State
      reads this
    {
      State(docs, cache)
    }

    constructor (digest: Digest)
      ensures Valid() && this.digest == digest && Now() == State([], map[])
    {
      this.digest := digest;
      docs := [];
      cache := map[];
      history := [];
    }

    method Invalidate(venue: Venue)
      modifies this`cache
      ensures cache == Invalidated(old(cache), venue)
    {
      cache := map k | k in cache && k.venue != venue :: cache[k];
    }

    method Save(seatmap: Seatmap) returns (r: Result<Seatmap>)
      requires Valid() && digest(seatmap.content) != ""
      modifies this
      ensures Valid() && (Now(), r) == SaveStep(old(Now()), seatmap, digest)
      ensures history == old(history)
                         + if r.Success? then [VersionEntry(seatmap.content.venue, seatmap.content.version)] else []
    {
      var withHash := seatmap.(hash := digest(seatmap.content));
      if FindVersion(docs, seatmap.content.venue, seatmap.content.version).Some? {
        return Failure(VersionExists);
      }
      docs := docs + [withHash];
      history := history + [VersionEntry(seatmap.content.venue, seatmap.content.version)];
      Invalidate(seatmap.content.venue);
      return Success(withHash);
    }

    method Publish(venue: Venue, version: string, now: nat) returns (r: Result<()>)
      requires Valid()
      modifies this`docs, this`cache
      ensures Valid() && (Now(), r) == PublishStep(old(Now()), venue, version, now)
    {
      UnpublishingFinds(docs, venue, version);
      PublishKeepsDocuments(docs, venue, version, now, digest);
      docs := Unpublished(docs, venue);
      var at := FindVersion(docs, venue, version);
      if at.None? { return Failure(NotFound); }
      docs := WithPublished(docs, at.value, now);
      Invalidate(venue);
      return Success(());
    }

    method GetMobile(venue: Venue, zoom: Zoom, now: nat) returns (r: Result<MobileView>)
      requires Valid()
      modifies this`cache
      ensures (Now(), r) == MobileStep(old(Now()), CacheKey(venue, zoom), now, digest)
    {
      var key := CacheKey(venue, zoom);
      if key in cache && now <= cache[key].expiresAt {
        return Success(cache[key].view);
      }
      var latest := GetLatest(docs, venue, digest);
      if latest.Failure? { return Failure(latest.error); }
      if latest.value.None? { return Failure(NotFound); }
      var view := Optimize(latest.value.value, zoom);
      cache := cache[key := CacheEntry(view, now + HOUR)];
      return Success(view);
    }
  }

  // ------------------------------------------------------------------- lemmas

  lemma {:induction false} UnpublishingFinds(docs: Documents, venue: Venue, version: string)
    ensures FindVersion(Unpublished(docs, venue), venue, version) == FindVersion(docs, venue, version)
    decreases |docs|
  {
    if docs != [] {
      UnpublishingFinds(docs[..|docs| - 1], venue, version);
      var r := Unpublished(docs, venue);
      assert r[..|r| - 1] == Unpublished(docs[..|docs| - 1], venue);
    }
  }

  lemma PublishKeepsDocuments(docs: Documents, venue: Venue, version: string, now: nat, digest: Digest)
    requires Sound(docs, digest)
    ensures var r := Published(docs, venue, version, now);
            && Sound(r, digest) && |r| == |docs|
            && (forall i :: 0 <= i < |docs| ==> r[i].content == docs[i].content)
            && (forall i :: 0 <= i < |docs| && docs[i].content.venue != venue ==> r[i] == docs[i])
  {
    var r := Published(docs, venue, version, now);
    assert forall i :: 0 <= i < |docs| ==> r[i].content == docs[i].content && r[i].hash == docs[i].hash;
    forall i | 0 <= i < |docs| ensures PassesCheck(r[i], digest) {
      assert PassesCheck(docs[i], digest);
    }
  }

  /** A venue's latest seatmap depends on that venue's documents only. */
  lemma {:induction false} LatestIsLocal(docs: Documents, other: Documents, venue: Venue)
    requires |docs| == |other|
    requires forall i :: 0 <= i < |docs| ==>
               docs[i] == other[i] || (!IsPublishedFor(docs[i], venue) && !IsPublishedFor(other[i], venue))
    ensures Latest(docs, venue) == Latest(other, venue)
    decreases |docs|
  {
    if docs != [] { LatestIsLocal(docs[..|docs| - 1], other[..|other| - 1], venue); }
  }

  lemma {:induction false} LatestIsOnly(docs: Documents, venue: Venue, at: nat)
    requires at < |docs| && forall i :: 0 <= i < |docs| ==> (IsPublishedFor(docs[i], venue) <==> i == at)
    ensures Latest(docs, venue) == Some(docs[at])
    decreases |docs|
  {
    var rest := docs[..|docs| - 1];
    if at < |rest| {
      LatestIsOnly(rest, venue, at);
    } else {
      NothingPublished(rest, venue);
    }
  }

  lemma {:induction false} NothingPublished(docs: Documents, venue: Venue)
    ensures Latest(docs, venue).None? <==> forall i :: 0 <= i < |docs| ==> !IsPublishedFor(docs[i], venue)
    decreases |docs|
  {
    if docs != [] {
      NothingPublished(docs[..|docs| - 1], venue);
      if forall i :: 0 <= i < |docs| ==> !IsPublishedFor(docs[i], venue) {
        assert !IsPublishedFor(docs[|docs| - 1], venue);
      }
    }
  }

  /** The latest seatmap is a published one, and none of the venue's published ones comes after it. */
  lemma {:induction false} LatestIsLatest(docs: Documents, venue: Venue)
    ensures var l := Latest(docs, venue);
            l.Some? ==> && l.value in docs && IsPublishedFor(l.value, venue)
                        && forall d :: d in docs && IsPublishedFor(d, venue) ==>
                             !Before(l.value.publishedAt, d.publishedAt)
    decreases |docs|
  {
    if docs != [] {
      var rest := docs[..|docs| - 1];
      LatestIsLatest(rest, venue);
      NothingPublished(rest, venue);
      assert docs == rest + [docs[|docs| - 1]];
    }
  }

  /** A successful publication leaves exactly that version of the venue published, and it is the latest. */
  lemma PublishLeavesOne(docs: Documents, venue: Venue, version: string, now: nat)
    requires VersionsUnique(docs) && FindVersion(docs, venue, version).Some?
    ensures var r := Published(docs, venue, version, now);
            && |r| == |docs|
            && (forall i :: 0 <= i < |r| ==> (IsPublishedFor(r[i], venue) <==> Matches(r[i], venue, version)))
            && Latest(r, venue).Some? && Matches(Latest(r, venue).value, venue, version)
            && Latest(r, venue).value.publishedAt == Some(now)
  {
    UnpublishingFinds(docs, venue, version);
    var at := FindVersion(docs, venue, version).value;
    var r := Published(docs, venue, version, now);
    assert forall i :: 0 <= i < |r| ==> r[i].content == docs[i].content;
    forall i | 0 <= i < |r| ensures Matches(r[i], venue, version) <==> i == at {
      assert i < at ==> !Matches(docs[i], docs[at].content.venue, docs[at].content.version);
      assert at < i ==> !Matches(docs[at], docs[i].content.venue, docs[i].content.version);
    }
    LatestIsOnly(r, venue, at);
  }

  /** The zoom level is configured, and its first entry satisfies `shows`. */
  ghost predicate FirstLevelShows(levels: seq<ZoomLevel>, zoom: Zoom, shows: ZoomLevel -> bool) {
    exists i :: 0 <= i < |levels| && levels[i].level == zoom && shows(levels[i])
                && forall j :: 0 <= j < i ==> levels[j].level != zoom
  }

  lemma {:induction false} FindLevelIsFirst(levels: seq<ZoomLevel>, zoom: Zoom, shows: ZoomLevel -> bool)
    ensures var found := FindLevel(levels, zoom);
            (found.Some? && shows(found.value)) <==> FirstLevelShows(levels, zoom, shows)
    decreases |levels|
  {
    if levels != [] {
      var rest := levels[1..];
      FindLevelIsFirst(rest, zoom, shows);
      if FirstLevelShows(levels, zoom, shows) {
        var i :| 0 <= i < |levels| && levels[i].level == zoom && shows(levels[i])
                 && forall j :: 0 <= j < i ==> levels[j].level != zoom;
        if i > 0 {
          assert levels[0].level != zoom;
          assert rest[i - 1] == levels[i] && forall j :: 0 <= j < i - 1 ==> rest[j] == levels[j + 1];
        }
      }
      if levels[0].level != zoom && FirstLevelShows(rest, zoom, shows) {
        var i :| 0 <= i < |rest| && rest[i].level == zoom && shows(rest[i])
                 && forall j :: 0 <= j < i ==> rest[j].level != zoom;
        assert levels[i + 1] == rest[i] && forall j :: 0 < j < i + 1 ==> levels[j] == rest[j - 1];
      }
    }
  }

  /**
   A mobile view has every section, in order, with its seat count; seats and amenities only where the zoom level
   shows them.
   */
  lemma ViewShows(d: Seatmap, zoom: Zoom)
    ensures var v := Optimize(d, zoom);
            var withSeats := FirstLevelShows(d.zoomLevels, zoom, (l: ZoomLevel) => l.showSeatNumbers);
            && v.venue == d.content.venue && v.version == d.content.version && v.dimensions == d.content.dimensions
            && v.stage == d.stage && v.zoom == zoom && |v.sections| == |d.content.sections|
            && (forall i :: 0 <= i < |v.sections| ==>
                  var m, s := v.sections[i], d.content.sections[i];
                  && m.id == s.id && m.look == s.look && m.capacity == s.capacity
                  && (s.seats.Some? ==> m.seatCount == |s.seats.value|) && (s.seats.None? ==> m.seatCount == 0)
                  && (withSeats ==> m.seats == s.seats) && (!withSeats ==> m.seats == None))
            && (v.amenities != [] <==>
                  FirstLevelShows(d.zoomLevels, zoom, (l: ZoomLevel) => l.showAmenities)
                  && d.amenities.Some? && d.amenities.value != [])
            && (v.amenities != [] ==> d.amenities == Some(v.amenities))
  {
    FindLevelIsFirst(d.zoomLevels, zoom, (l: ZoomLevel) => l.showSeatNumbers);
    FindLevelIsFirst(d.zoomLevels, zoom, (l: ZoomLevel) => l.showAmenities);
  }

  lemma SameView(docs: Documents, other: Documents, key: CacheKey, digest: Digest)
    requires Latest(docs, key.venue) == Latest(other, key.venue)
    ensures Uncached(docs, key, digest) == Uncached(other, key, digest)
  {}

  lemma PublishIsLocal(docs: Documents, venue: Venue, version: string, now: nat, other: Venue)
    requires other != venue
    ensures Latest(Published(docs, venue, version, now), other) == Latest(docs, other)
  {
    LatestIsLocal(docs, Published(docs, venue, version, now), other);
  }

  /** The exact condition: a publication keeps the cache right unless it names no version while views are cached. */
  lemma PublishCoherentIff(s: State, venue: Venue, version: string, now: nat, digest: Digest)
    requires Sound(s.docs, digest) && Coherent(s.docs, s.cache, digest)
    ensures var after := PublishStep(s, venue, version, now).0;
            Coherent(after.docs, after.cache, digest)
            <==> (FindVersion(s.docs, venue, version).Some? || forall k :: k in s.cache ==> k.venue != venue)
  {
    var r := Published(s.docs, venue, version, now);
    forall k | k in s.cache && k.venue != venue ensures Uncached(r, k, digest) == Success(s.cache[k].view) {
      PublishIsLocal(s.docs, venue, version, now, k.venue);
      SameView(s.docs, r, k, digest);
    }
    if FindVersion(s.docs, venue, version).None? {
      UnpublishingFinds(s.docs, venue, version);
      NothingPublished(r, venue);
      assert forall k :: k in s.cache && k.venue == venue ==> Uncached(r, k, digest) == Failure(NotFound);
    }
  }

  lemma SaveIsCoherent(s: State, seatmap: Seatmap, digest: Digest)
    requires Coherent(s.docs, s.cache, digest)
    ensures var after := SaveStep(s, seatmap, digest).0; Coherent(after.docs, after.cache, digest)
  {
    var after, venue := SaveStep(s, seatmap, digest).0, seatmap.content.venue;
    if after != s {
      assert after.docs[..|after.docs| - 1] == s.docs;
      forall k | k in s.cache && k.venue != venue ensures Uncached(after.docs, k, digest) == Success(s.cache[k].view) {
        SameView(after.docs, s.docs, k, digest);
      }
    }
  }

  // --------------------------------------------------------------------- runs

  datatype Op =
    | SaveOp(seatmap: Seatmap)
    | PublishOp(venue: Venue, version: string)
    | LatestOp(of: Venue)
    | MobileOp(key: CacheKey)

  datatype Event = Event(op: Op, now: nat)

  datatype Answer =
    | SaveAnswer(saved: Result<Seatmap>)
    | PublishAnswer(published: Result<()>)
    | LatestAnswer(latest: Result<Option<Seatmap>>)
    | MobileAnswer(view: Result<MobileView>)

  function Step(s: State, e: Event, digest: Digest): (State, Answer) {
    match e.op
    case SaveOp(m) => var r := SaveStep(s, m, digest); (r.0, SaveAnswer(r.1))
    case PublishOp(v, version) => var r := PublishStep(s, v, version, e.now); (r.0, PublishAnswer(r.1))
    case LatestOp(v) => (s, LatestAnswer(GetLatest(s.docs, v, digest)))
    case MobileOp(key) => var r := MobileStep(s, key, e.now, digest); (r.0, MobileAnswer(r.1))
  }

  /** The same operation with the cache left empty. */
  function PlainStep(docs: Documents, e: Event, digest: Digest): (Documents, Answer) {
    if e.op.MobileOp? then (docs, MobileAnswer(Uncached(docs, e.op.key, digest)))
    else
      var r := Step(State(docs, map[]), e, digest);
      (r.0.docs, r.1)
  }

  function Answers(s: State, events: seq<Event>, digest: Digest): seq<Answer>
    decreases |events|
  {
    if events == [] then []
    else
      var r := Step(s, events[0], digest);
      [r.1] + Answers(r.0, events[1..], digest)
  }

  function PlainAnswers(docs: Documents, events: seq<Event>, digest: Digest): seq<Answer>
    decreases |events|
  {
    if events == [] then []
    else
      var r := PlainStep(docs, events[0], digest);
      [r.1] + PlainAnswers(r.0, events[1..], digest)
  }

  function After(s: State, events: seq<Event>, digest: Digest): State
    decreases |events|
  {
    if events == [] then s else After(Step(s, events[0], digest).0, events[1..], digest)
  }

  /** Every publication names a version that is stored by then. */
  predicate PublishesExisting(docs: Documents, events: seq<Event>, digest: Digest)
    decreases |events|
  {
    events == [] ||
    (&& (var op := events[0].op; op.PublishOp? ==> FindVersion(docs, op.venue, op.version).Some?)
     && PublishesExisting(PlainStep(docs, events[0], digest).0, events[1..], digest))
  }

  ghost predicate NeverEmpty(digest: Digest) {
    forall c :: digest(c) != ""
  }

  lemma StepAgrees(s: State, e: Event, digest: Digest)
    requires Sound(s.docs, digest) && Coherent(s.docs, s.cache, digest) && NeverEmpty(digest)
    requires e.op.PublishOp? ==> FindVersion(s.docs, e.op.venue, e.op.version).Some?
    ensures var r := Step(s, e, digest);
            && Sound(r.0.docs, digest) && Coherent(r.0.docs, r.0.cache, digest)
            && (r.0.docs, r.1) == PlainStep(s.docs, e, digest)
  {
    match e.op
    case SaveOp(m) => SaveIsCoherent(s, m, digest);
    case PublishOp(v, version) =>
      PublishCoherentIff(s, v, version, e.now, digest);
      PublishKeepsDocuments(s.docs, v, version, e.now, digest);
    case LatestOp(_) =>
    case MobileOp(_) =>
  }

  /** The cache cannot be observed: whatever the run and its clock, every answer is the answer without a cache. */
  lemma {:induction false} CacheIsInvisible(s: State, events: seq<Event>, digest: Digest)
    requires Sound(s.docs, digest) && Coherent(s.docs, s.cache, digest) && NeverEmpty(digest)
    requires PublishesExisting(s.docs, events, digest)
    ensures Answers(s, events, digest) == PlainAnswers(s.docs, events, digest)
    ensures var end := After(s, events, digest); Sound(end.docs, digest) && Coherent(end.docs, end.cache, digest)
    decreases |events|
  {
    if events != [] {
      StepAgrees(s, events[0], digest);
      CacheIsInvisible(Step(s, events[0], digest).0, events[1..], digest);
    }
  }

  /** From an empty store, every stored seatmap passes its integrity check after any run, missing versions included. */
  lemma {:induction false} IntegrityIsKept(s: State, events: seq<Event>, digest: Digest)
    requires Sound(s.docs, digest) && NeverEmpty(digest)
    ensures Sound(After(s, events, digest).docs, digest)
    ensures forall v :: GetLatest(After(s, events, digest).docs, v, digest).Success?
    decreases |events|
  {
    if events != [] {
      if events[0].op.PublishOp? {
        PublishKeepsDocuments(s.docs, events[0].op.venue, events[0].op.version, events[0].now, digest);
      }
      IntegrityIsKept(Step(s, events[0], digest).0, events[1..], digest);
    } else {
      forall v ensures GetLatest(s.docs, v, digest).Success? {
        LatestIsLatest(s.docs, v);
      }
    }
  }
}
