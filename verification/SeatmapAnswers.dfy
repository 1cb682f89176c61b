/**
 What callers of the seatmap repository are told: which seatmap is the latest, what a mobile view of it shows, how
 long a published version is served, and how stale an answer can get.
 */
module SeatmapAnswers {
  import opened Options
  import opened SeatmapCache

  // ----------------------------------------------------------- the latest seatmap

  ghost predicate IsStored(docs: Documents, venue: Venue, version: string) {
    exists d :: d in docs && d.content.venue == venue && d.content.version == version
  }

  ghost predicate HasPublished(docs: Documents, venue: Venue) {
    exists d :: d in docs && d.content.venue == venue && d.published
  }

  /** A published seatmap of the venue, none of which has a later date; a missing date is the earliest. */
  ghost predicate IsLatest(docs: Documents, venue: Venue, d: Seatmap) {
    && d in docs && d.content.venue == venue && d.published
    && forall e :: e in docs && e.content.venue == venue && e.published && e.publishedAt.Some? ==>
         d.publishedAt.Some? && e.publishedAt.value <= d.publishedAt.value
  }

  /** getLatestSeatmap: a latest one if its hash is that of its content, and nothing iff none is published. */
  lemma LatestIsExact(docs: Documents, venue: Venue, digest: Digest)
    ensures match GetLatest(docs, venue, digest)
            case Success(Some(d)) => IsLatest(docs, venue, d) && d.hash == digest(d.content) && d.hash != ""
            case Success(None) => !HasPublished(docs, venue)
            case Failure(e) =>
              e == CorruptedData
              && exists d :: IsLatest(docs, venue, d) && (d.hash != digest(d.content) || d.hash == "")
  {
    NothingPublished(docs, venue);
    LatestIsLatest(docs, venue);
    var latest := Latest(docs, venue);
    if latest.Some? {
      assert IsLatest(docs, venue, latest.value);
    } else {
      forall d | d in docs ensures !(d.content.venue == venue && d.published) {
        var i :| 0 <= i < |docs| && docs[i] == d;
        assert !IsPublishedFor(docs[i], venue);
      }
    }
  }

  /** As long as nothing is corrupted, it answers a latest seatmap iff some is published, and never fails. */
  lemma SoundLatest(docs: Documents, venue: Venue, digest: Digest)
    requires Sound(docs, digest)
    ensures var r := GetLatest(docs, venue, digest);
            && r.Success?
            && (r.value.Some? <==> HasPublished(docs, venue))
            && (r.value.Some? ==> IsLatest(docs, venue, r.value.value))
  {
    LatestIsExact(docs, venue, digest);
    LatestIsLatest(docs, venue);
    forall d | d in docs ensures PassesCheck(d, digest) {}
  }

  // -------------------------------------------------------------- the mobile view

  /** The first entry for the zoom level, if there is one, shows seat numbers. */
  ghost predicate NumbersShown(d: Seatmap, zoom: Zoom) {
    FirstLevelShows(d.zoomLevels, zoom, (l: ZoomLevel) => l.showSeatNumbers)
  }

  ghost predicate AmenitiesShown(d: Seatmap, zoom: Zoom) {
    FirstLevelShows(d.zoomLevels, zoom, (l: ZoomLevel) => l.showAmenities)
  }

  /** The view is that of the seatmap at the zoom level. */
  ghost predicate Shows(v: MobileView, d: Seatmap, zoom: Zoom) {
    && v.venue == d.content.venue && v.version == d.content.version && v.dimensions == d.content.dimensions
    && v.stage == d.stage && v.zoom == zoom && |v.sections| == |d.content.sections|
    && (forall i :: 0 <= i < |v.sections| ==>
          var m, s := v.sections[i], d.content.sections[i];
          && m.id == s.id && m.look == s.look && m.capacity == s.capacity
          && m.seatCount == (if s.seats.Some? then |s.seats.value| else 0)
          && m.seats == if NumbersShown(d, zoom) then s.seats else None)
    && v.amenities == if AmenitiesShown(d, zoom) && d.amenities.Some? then d.amenities.value else []
  }

  lemma OptimizeShows(d: Seatmap, zoom: Zoom)
    ensures Shows(Optimize(d, zoom), d, zoom)
  {
    ViewShows(d, zoom);
  }

  /** A request answered without the cache: the view of a latest seatmap, or that there is none. */
  lemma UncachedIsExact(docs: Documents, key: CacheKey, digest: Digest)
    requires Sound(docs, digest)
    ensures match Uncached(docs, key, digest)
            case Success(v) => exists d :: IsLatest(docs, key.venue, d) && Shows(v, d, key.zoom)
            case Failure(e) => e == NotFound && !HasPublished(docs, key.venue)
  {
    SoundLatest(docs, key.venue, digest);
    var latest := GetLatest(docs, key.venue, digest).value;
    if latest.Some? { OptimizeShows(latest.value, key.zoom); }
  }

  /**
   getMobileSeatmap, hit or miss, while the cache is right: the view, for the zoom level asked for, of a latest
   seatmap of the venue, and "not found" iff none is published. Afterwards it is in the cache, for an hour if it was
   not there, and nothing else has changed.
   */
  lemma MobileIsExact(s: State, key: CacheKey, now: nat, digest: Digest)
    requires Sound(s.docs, digest) && Coherent(s.docs, s.cache, digest)
    ensures var (after, r) := MobileStep(s, key, now, digest);
            && (match r
                case Success(v) =>
                  && v.zoom == key.zoom && v.venue == key.venue
                  && (exists d :: IsLatest(s.docs, key.venue, d) && Shows(v, d, key.zoom))
                  && key in after.cache && after.cache[key].view == v
                case Failure(e) => e == NotFound && !HasPublished(s.docs, key.venue) && after == s)
            && (r.Success? && !(key in s.cache && now <= s.cache[key].expiresAt) ==>
                  after.cache[key].expiresAt == now + 3600000)
            && (key in s.cache && now <= s.cache[key].expiresAt ==> after == s)
            && after.docs == s.docs && forall k :: k != key ==> Lookup(after.cache, k) == Lookup(s.cache, k)
  {
    UncachedIsExact(s.docs, key, digest);
  }

  /** So it is after any run whose publications name stored versions. */
  lemma EveryMobileAnswer(events: seq<Event>, key: CacheKey, now: nat, digest: Digest)
    requires PublishesExisting([], events, digest) && NeverEmpty(digest)
    ensures var s := After(State([], map[]), events, digest);
            match MobileStep(s, key, now, digest).1
            case Success(v) => exists d :: IsLatest(s.docs, key.venue, d) && Shows(v, d, key.zoom)
            case Failure(e) => e == NotFound && !HasPublished(s.docs, key.venue)
  {
    CacheIsInvisible(State([], map[]), events, digest);
    MobileIsExact(After(State([], map[]), events, digest), key, now, digest);
  }

  // ----------------------------------------------------------- saving, publishing

  lemma FindVersionIff(docs: Documents, venue: Venue, version: string)
    ensures FindVersion(docs, venue, version).Some? <==> IsStored(docs, venue, version)
  {
    var found := FindVersion(docs, venue, version);
    if found.Some? { assert docs[found.value] in docs; }
  }

  /**
   saveSeatmap: refused iff this venue has the version already, and then nothing changes. Otherwise the seatmap is
   stored as given, with the hash of its content, and no cached view of its venue, but every other one, is left.
   */
  lemma SaveIsExact(s: State, seatmap: Seatmap, digest: Digest)
    ensures var (after, r) := SaveStep(s, seatmap, digest);
            var venue, version := seatmap.content.venue, seatmap.content.version;
            if IsStored(s.docs, venue, version) then r == Failure(VersionExists) && after == s
            else
              && r.Success? && r.value.hash == digest(seatmap.content) && r.value.(hash := seatmap.hash) == seatmap
              && after.docs == s.docs + [r.value] && IsStored(after.docs, venue, version)
              && (forall k :: k in after.cache <==> k in s.cache && k.venue != venue)
              && (forall k :: k in after.cache ==> after.cache[k] == s.cache[k])
  {
    FindVersionIff(s.docs, seatmap.content.venue, seatmap.content.version);
    var (after, r) := SaveStep(s, seatmap, digest);
    if r.Success? { assert r.value in after.docs; }
  }

  /** A stored seatmap after the publication of a version: only the two fields about publication may change. */
  function AfterPublication(d: Seatmap, venue: Venue, version: string, now: nat): Seatmap {
    if d.content.venue != venue then d
    else if d.content.version != version then d.(published := false)
    else d.(published := true, publishedAt := Some(now))
  }

  /**
   publishSeatmap, from any store: it succeeds iff the version is stored; either way the venue's other versions are
   unpublished, and the cached views of the venue go iff it succeeds.
   */
  lemma PublishIsExact(s: State, venue: Venue, version: string, now: nat)
    requires VersionsUnique(s.docs)
    ensures var (after, r) := PublishStep(s, venue, version, now);
            && r == (if IsStored(s.docs, venue, version) then Success(()) else Failure(NotFound))
            && |after.docs| == |s.docs|
            && (forall i :: 0 <= i < |s.docs| ==>
                  after.docs[i] == AfterPublication(s.docs[i], venue, version, now))
            && (forall k :: k in after.cache <==> k in s.cache && (k.venue != venue || r.Failure?))
            && (forall k :: k in after.cache ==> after.cache[k] == s.cache[k])
  {
    FindVersionIff(s.docs, venue, version);
    UnpublishingFinds(s.docs, venue, version);
    var at := FindVersion(s.docs, venue, version);
    forall i | 0 <= i < |s.docs| && at.Some? ensures Matches(s.docs[i], venue, version) <==> i == at.value {
      assert i < at.value ==> !Matches(s.docs[i], s.docs[at.value].content.venue, s.docs[at.value].content.version);
      assert at.value < i ==> !Matches(s.docs[at.value], s.docs[i].content.venue, s.docs[i].content.version);
    }
  }

  // ----------------------------------------------------- how long a version is served

  /** The venue's published version, as every caller sees it. */
  ghost predicate Serves(s: State, venue: Venue, d: Seatmap, digest: Digest) {
    && GetLatest(s.docs, venue, digest) == Success(Some(d))
    && (forall zoom, now ::
          var r := MobileStep(s, CacheKey(venue, zoom), now, digest).1; r.Success? && Shows(r.value, d, zoom))
  }

  /** A version is served if it is the latest and the cache is right. */
  lemma LatestIsServed(s: State, venue: Venue, d: Seatmap, digest: Digest)
    requires Coherent(s.docs, s.cache, digest) && GetLatest(s.docs, venue, digest) == Success(Some(d))
    ensures Serves(s, venue, d, digest)
  {
    forall zoom { OptimizeShows(d, zoom); }
  }

  /** Right after its publication a version is what getLatest and getMobile answer, at every zoom level. */
  lemma PublishedIsServed(s: State, venue: Venue, version: string, now: nat, digest: Digest) returns (d: Seatmap)
    requires Sound(s.docs, digest) && Coherent(s.docs, s.cache, digest) && IsStored(s.docs, venue, version)
    ensures d.content.venue == venue && d.content.version == version && d.publishedAt == Some(now)
    ensures var (after, r) := PublishStep(s, venue, version, now); r == Success(()) && Serves(after, venue, d, digest)
  {
    var after := PublishStep(s, venue, version, now).0;
    FindVersionIff(s.docs, venue, version);
    PublishKeepsDocuments(s.docs, venue, version, now, digest);
    PublishLeavesOne(s.docs, venue, version, now);
    PublishCoherentIff(s, venue, version, now, digest);
    SoundLatest(after.docs, venue, digest);
    d := Latest(after.docs, venue).value;
    LatestIsServed(after, venue, d, digest);
  }

  /** The event publishes no version of the venue, and saves none that is marked published. */
  predicate LeavesPublished(op: Op, venue: Venue) {
    && (op.PublishOp? ==> op.venue != venue)
    && (op.SaveOp? && op.seatmap.content.venue == venue ==> !op.seatmap.published)
  }

  lemma LatestIsLeft(s: State, e: Event, venue: Venue, digest: Digest)
    requires LeavesPublished(e.op, venue)
    ensures Latest(Step(s, e, digest).0.docs, venue) == Latest(s.docs, venue)
  {
    match e.op
    case SaveOp(m) =>
      var after := Step(s, e, digest).0;
      if after.docs != s.docs { assert after.docs[..|after.docs| - 1] == s.docs; }
    case PublishOp(v, version) => PublishIsLocal(s.docs, v, version, e.now, venue);
    case LatestOp(_) =>
    case MobileOp(_) =>
  }

  /** A served version stays served through any run that publishes no other one of its venue. */
  lemma {:induction false} StaysServed(s: State, events: seq<Event>, venue: Venue, d: Seatmap, digest: Digest)
    requires Sound(s.docs, digest) && Coherent(s.docs, s.cache, digest) && NeverEmpty(digest)
    requires PublishesExisting(s.docs, events, digest) && forall e :: e in events ==> LeavesPublished(e.op, venue)
    requires Serves(s, venue, d, digest)
    ensures Serves(After(s, events, digest), venue, d, digest)
    decreases |events|
  {
    if events != [] {
      var next := Step(s, events[0], digest).0;
      assert events[0] in events;
      StepAgrees(s, events[0], digest);
      LatestIsLeft(s, events[0], venue, digest);
      LatestIsServed(next, venue, d, digest);
      StaysServed(next, events[1..], venue, d, digest);
    }
  }

  // --------------------------------------------------------------- how stale at most

  lemma {:induction false} AfterSnoc(s: State, events: seq<Event>, n: nat, digest: Digest)
    requires n < |events|
    ensures After(s, events[..n + 1], digest) == Step(After(s, events[..n], digest), events[n], digest).0
    decreases n
  {
    if n == 0 {
      assert events[..1][1..] == [];
    } else {
      AfterSnoc(Step(s, events[0], digest).0, events[1..], n - 1, digest);
      assert events[..n + 1][1..] == events[1..][..n] && events[..n][1..] == events[1..][..n - 1];
    }
  }

  function DocsAt(events: seq<Event>, n: nat, digest: Digest): Documents
    requires n <= |events|
  {
    After(State([], map[]), events[..n], digest).docs
  }

  /** Event j asked for the key and computed this view from the documents of its time. */
  ghost predicate ComputedAt(events: seq<Event>, j: int, key: CacheKey, view: MobileView, digest: Digest) {
    && 0 <= j < |events| && events[j].op == MobileOp(key)
    && Uncached(DocsAt(events, j, digest), key, digest) == Success(view)
  }

  ghost predicate ComputedBefore(events: seq<Event>, n: int, key: CacheKey, entry: CacheEntry, digest: Digest) {
    exists j :: 0 <= j < n && ComputedAt(events, j, key, entry.view, digest)
                && entry.expiresAt == events[j].now + 3600000
  }

  ghost predicate AllComputed(events: seq<Event>, n: int, cache: Cache, digest: Digest) {
    forall k :: k in cache ==> ComputedBefore(events, n, k, cache[k], digest)
  }

  lemma {:induction false} EntriesWereComputed(events: seq<Event>, n: nat, digest: Digest)
    requires n <= |events|
    ensures AllComputed(events, n, After(State([], map[]), events[..n], digest).cache, digest)
  {
    if n > 0 {
      EntriesWereComputed(events, n - 1, digest);
      AfterSnoc(State([], map[]), events, n - 1, digest);
      var before := After(State([], map[]), events[..n - 1], digest);
      var after := Step(before, events[n - 1], digest).0;
      forall k | k in after.cache ensures ComputedBefore(events, n, k, after.cache[k], digest) {
        if k in before.cache && after.cache[k] == before.cache[k] {
          assert ComputedBefore(events, n - 1, k, before.cache[k], digest);
        } else {
          assert ComputedAt(events, n - 1, k, after.cache[k].view, digest);
        }
      }
    }
  }

  /** What the request at event n is answered. */
  function AnswerAt(events: seq<Event>, n: nat, digest: Digest): Result<MobileView>
    requires n < |events| && events[n].op.MobileOp?
  {
    MobileStep(After(State([], map[]), events[..n], digest), events[n].op.key, events[n].now, digest).1
  }

  /**
   In any run, publications of missing versions included: the view a request gets is one that was right, for its key,
   at this or an earlier request at most an hour ago by the clock.
   */
  lemma StaleByAtMostAnHour(events: seq<Event>, n: nat, digest: Digest) returns (j: nat)
    requires n < |events| && events[n].op.MobileOp? && AnswerAt(events, n, digest).Success?
    ensures j <= n && events[n].now <= events[j].now + 3600000
    ensures ComputedAt(events, j, events[n].op.key, AnswerAt(events, n, digest).value, digest)
  {
    var s, key := After(State([], map[]), events[..n], digest), events[n].op.key;
    EntriesWereComputed(events, n, digest);
    assert AllComputed(events, n, s.cache, digest);
    j := n;
    if key in s.cache && events[n].now <= s.cache[key].expiresAt {
      assert ComputedBefore(events, n, key, s.cache[key], digest);
      j :| 0 <= j < n && ComputedAt(events, j, key, s.cache[key].view, digest)
           && s.cache[key].expiresAt == events[j].now + 3600000;
    }
  }
}
