/**
 Server-sent events: the wire format the server broadcasts and the mobile client's incremental parser.
 A byte of the stream is one character here.
 */
module EventStream {
  import opened Options

  datatype Event = Event(name: string, data: string)

  const LFLF := "\n\n"
  const CRLFCRLF := "\r\n\r\n"

  // ------------------------------------------------------------------- framing

  predicate At(buf: string, i: int, pat: string) {
    0 <= i && i + |pat| <= |buf| && buf[i..i + |pat|] == pat
  }

  predicate IsFirst(buf: string, pat: string, i: int) {
    At(buf, i, pat) && forall j :: 0 <= j < i ==> !At(buf, j, pat)
  }

  /** Where `pat` first occurs. */
  function First(buf: string, pat: string): (r: Option<nat>)
    ensures r.Some? ==> IsFirst(buf, pat, r.value)
    ensures r.None? ==> forall i :: !At(buf, i, pat)
  {
    FirstExists(buf, pat);
    if exists i :: 0 <= i <= |buf| && IsFirst(buf, pat, i) then
      var i :| 0 <= i <= |buf| && IsFirst(buf, pat, i);
      Some(i)
    else None
  }

  lemma FirstExists(buf: string, pat: string)
    ensures forall i :: At(buf, i, pat) ==> exists j :: 0 <= j <= |buf| && IsFirst(buf, pat, j)
  {
    forall i | At(buf, i, pat) ensures exists j :: 0 <= j <= |buf| && IsFirst(buf, pat, j) {
      var n := 0;
      while !At(buf, n, pat)
        invariant 0 <= n <= i && forall j :: 0 <= j < n ==> !At(buf, j, pat)
        decreases i - n
      {
        n := n + 1;
      }
      assert IsFirst(buf, pat, n);
    }
  }

  /** The next block to cut: up to a blank line, or, only if the buffer has none, up to a CRLF blank line. */
  function NextBlock(buf: string): (r: Option<(nat, nat)>)
    ensures r.Some? ==> r.value.0 < r.value.1 <= |buf|
  {
    match First(buf, LFLF)
    case Some(i) => Some((i, i + 2))
    case None =>
      match First(buf, CRLFCRLF)
      case Some(i) => Some((i, i + 4))
      case None => None
  }

  /** All complete blocks of a buffer, and what is left over. */
  function Drain(buf: string): (seq<string>, string)
    decreases |buf|
  {
    match NextBlock(buf)
    case None => ([], buf)
    case Some(cut) =>
      var later := Drain(buf[cut.1..]);
      ([buf[..cut.0]] + later.0, later.1)
  }

  // ------------------------------------------------------------------- parsing

  /** The members of Foundation's CharacterSet.whitespaces that are one byte long. */
  predicate IsBlank(c: char) { c == ' ' || c == '\t' }

  function Trim(s: string): string
    decreases |s|
  {
    if s != "" && IsBlank(s[0]) then Trim(s[1..])
    else if s != "" && IsBlank(s[|s| - 1]) then Trim(s[..|s| - 1])
    else s
  }

  /** A line feed on its own: Swift reads a carriage return and a line feed as one other Character. */
  predicate BreaksAt(s: string, i: int) {
    0 <= i < |s| && s[i] == '\n' && (i == 0 || s[i - 1] != '\r')
  }

  ghost predicate Unbroken(s: string) { forall i :: !BreaksAt(s, i) }

  function FirstBreak(s: string, from: nat): (r: nat)
    requires from <= |s|
    ensures from <= r <= |s| && (forall i :: from <= i < r ==> !BreaksAt(s, i)) && (r < |s| ==> BreaksAt(s, r))
    decreases |s| - from
  {
    if from == |s| || BreaksAt(s, from) then from else FirstBreak(s, from + 1)
  }

  /** split(separator: "\n"), which omits empty pieces. */
  function Lines(s: string): seq<string>
    decreases |s|
  {
    var i := FirstBreak(s, 0);
    (if i == 0 then [] else [s[..i]]) + if i == |s| then [] else Lines(s[i + 1..])
  }

  /** The value of the last "event:" line, otherwise "message". */
  function NameOf(lines: seq<string>): string {
    if lines == [] then "message"
    else if "event:" <= lines[|lines| - 1] then Trim(lines[|lines| - 1][6..])
    else NameOf(lines[..|lines| - 1])
  }

  function DataOf(lines: seq<string>): seq<string> {
    if lines == [] then []
    else
      var before := DataOf(lines[..|lines| - 1]);
      if "data:" <= lines[|lines| - 1] then before + [Trim(lines[|lines| - 1][5..])] else before
  }

  function Join(parts: seq<string>): string {
    if parts == [] then ""
    else if |parts| == 1 then parts[0]
    else Join(parts[..|parts| - 1]) + "\n" + parts[|parts| - 1]
  }

  function Parse(block: string): Event {
    Event(NameOf(Lines(block)), Join(DataOf(Lines(block))))
  }

  function ParseAll(blocks: seq<string>): seq<Event> {
    seq(|blocks|, i requires 0 <= i < |blocks| => Parse(blocks[i]))
  }

  lemma DrainNext(buf: string, cut: (nat, nat))
    requires NextBlock(buf) == Some(cut)
    ensures Drain(buf) == ([buf[..cut.0]] + Drain(buf[cut.1..]).0, Drain(buf[cut.1..]).1)
  {}

  lemma ParseAllConcat(a: seq<string>, b: seq<string>)
    ensures ParseAll(a + b) == ParseAll(a) + ParseAll(b)
  {}

  /** Delivering the next block moves one event from what is still to come to what has been delivered. */
  lemma DeliverNext(log: seq<Event>, buf: string, cut: (nat, nat))
    requires NextBlock(buf) == Some(cut)
    ensures log + ParseAll(Drain(buf).0) == (log + [Parse(buf[..cut.0])]) + ParseAll(Drain(buf[cut.1..]).0)
    ensures Drain(buf).1 == Drain(buf[cut.1..]).1
  {
    DrainNext(buf, cut);
    ParseAllConcat([buf[..cut.0]], Drain(buf[cut.1..]).0);
    assert ParseAll([buf[..cut.0]]) == [Parse(buf[..cut.0])];
  }

  class Client {
    var buffer: string
    var delivered: seq<Event>

    constructor ()
      ensures buffer == "" && delivered == []
    {
      buffer := "";
      delivered := [];
    }

    /** A chunk arrives: append it, then cut and deliver every complete block. */
    method DidReceive(data: string)
      modifies this
      ensures buffer == Drain(old(buffer) + data).1
      ensures delivered == old(delivered) + ParseAll(Drain(old(buffer) + data).0)
    {
      buffer := buffer + data;
      ghost var whole := Drain(buffer);
      var cut := NextBlock(buffer);
      while cut.Some?
        invariant cut == NextBlock(buffer)
        invariant Drain(buffer).1 == whole.1
        invariant delivered + ParseAll(Drain(buffer).0) == old(delivered) + ParseAll(whole.0)
        decreases |buffer|
      {
        var block := buffer[..cut.value.0];
        DeliverNext(delivered, buffer, cut.value);
        buffer := buffer[cut.value.1..];
        ParseEventBlock(block);
        cut := NextBlock(buffer);
      }
    }

    method ParseEventBlock(block: string)
      modifies this`delivered
      ensures delivered == old(delivered) + [Parse(block)]
    {
      var name := "message";
      var dataLines: seq<string> := [];
      var lines := Lines(block);
      for i := 0 to |lines|
        invariant name == NameOf(lines[..i])
        invariant dataLines == DataOf(lines[..i])
      {
        assert lines[..i + 1][..i] == lines[..i];
        if "event:" <= lines[i] {
          assert lines[i][0] == "event:"[0];
          name := Trim(lines[i][6..]);
        } else if "data:" <= lines[i] {
          dataLines := dataLines + [Trim(lines[i][5..])];
        }
      }
      assert lines[..|lines|] == lines;
      delivered := delivered + [Event(name, Join(dataLines))];
    }
  }

  // ----------------------------------------------------------- the server's side

  function Head(e: Event): string {
    "event: " + e.name + "\n" + "data: " + e.data
  }

  function Wire(e: Event): string {
    Head(e) + "\n\n"
  }

  function WireAll(es: seq<Event>): string {
    if es == [] then "" else Wire(es[0]) + WireAll(es[1..])
  }

  class Connection {
    var sent: string
    const broken: bool

    constructor (broken: bool)
      ensures sent == "" && this.broken == broken
    {
      sent := "";
      this.broken := broken;
    }
  }

  class Hub {
    var clients: set<Connection>

    constructor ()
      ensures clients == {}
    {
      clients := {};
    }

    method AddClient(c: Connection)
      modifies this
      ensures clients == old(clients) + {c}
    {
      clients := clients + {c};
    }

    method RemoveClient(c: Connection)
      modifies this
      ensures clients == old(clients) - {c}
    {
      clients := clients - {c};
    }

    /** Every client gets the whole payload; a write that fails is ignored and stops nobody else's. */
    method Broadcast(e: Event)
      modifies clients
      ensures forall c :: c in clients ==> c.sent == old(c.sent) + if c.broken then "" else Wire(e)
    {
      var left := clients;
      while left != {}
        invariant left <= clients
        invariant forall c :: c in clients - left ==> c.sent == old(c.sent) + if c.broken then "" else Wire(e)
        invariant forall c :: c in left ==> c.sent == old(c.sent)
        decreases left
      {
        var c :| c in left;
        if !c.broken { c.sent := c.sent + Wire(e); }
        left := left - {c};
      }
    }
  }

  // -------------------------------------------------- chunks do not matter, mostly

  /** A CRLF blank line stands before some LF blank line. */
  ghost predicate MixesEndings(s: string) {
    exists i, j :: At(s, i, CRLFCRLF) && At(s, j, LFLF) && i < j
  }

  function Feed(left: string, chunk: string): (seq<string>, string) {
    Drain(left + chunk)
  }

  function FeedAll(left: string, chunks: seq<string>): (seq<string>, string)
    decreases |chunks|
  {
    if chunks == [] then ([], left)
    else
      var first := Feed(left, chunks[0]);
      var later := FeedAll(first.1, chunks[1..]);
      (first.0 + later.0, later.1)
  }

  function Concat(chunks: seq<string>): string {
    if chunks == [] then "" else chunks[0] + Concat(chunks[1..])
  }

  lemma LfAt(s: string, i: int)
    ensures At(s, i, LFLF) <==> 0 <= i && i + 2 <= |s| && s[i] == '\n' && s[i + 1] == '\n'
  {
    if 0 <= i && i + 2 <= |s| { assert s[i..i + 2] == [s[i], s[i + 1]]; }
  }

  lemma CrAt(s: string, i: int)
    ensures At(s, i, CRLFCRLF) ==>
              i + 4 <= |s| && s[i] == '\r' && s[i + 1] == '\n' && s[i + 2] == '\r' && s[i + 3] == '\n'
  {
    if 0 <= i && i + 4 <= |s| { assert s[i..i + 4] == [s[i], s[i + 1], s[i + 2], s[i + 3]]; }
  }

  lemma FirstIs(buf: string, pat: string, i: nat)
    requires At(buf, i, pat) && forall j :: 0 <= j < i ==> !At(buf, j, pat)
    ensures First(buf, pat) == Some(i)
  {
    assert First(buf, pat).Some?;
  }

  lemma AtPrefix(a: string, b: string, i: int, pat: string)
    requires i + |pat| <= |a|
    ensures At(a + b, i, pat) <==> At(a, i, pat)
  {
    if 0 <= i { assert (a + b)[i..i + |pat|] == a[i..i + |pat|]; }
  }

  lemma AtSuffix(s: string, lo: nat, i: int, pat: string)
    requires lo <= |s| && 0 <= i
    ensures At(s[lo..], i, pat) <==> At(s, lo + i, pat)
  {
    if i + |pat| <= |s| - lo { assert s[lo..][i..i + |pat|] == s[lo + i..lo + i + |pat|]; }
  }

  lemma SuffixDoesNotMix(s: string, lo: nat)
    requires lo <= |s| && !MixesEndings(s)
    ensures !MixesEndings(s[lo..])
  {
    forall i, j | At(s[lo..], i, CRLFCRLF) && At(s[lo..], j, LFLF) ensures i >= j {
      AtSuffix(s, lo, i, CRLFCRLF);
      AtSuffix(s, lo, j, LFLF);
    }
  }

  /** More input does not change the first block that is already complete. */
  lemma FirstBlockStable(a: string, b: string)
    requires NextBlock(a).Some? && !MixesEndings(a + b)
    ensures NextBlock(a + b) == NextBlock(a)
  {
    var i := NextBlock(a).value.0;
    forall j: int | j <= i ensures At(a + b, j, LFLF) <==> At(a, j, LFLF) {
      if j + 2 <= |a| { AtPrefix(a, b, j, LFLF); }
    }
    if !At(a, i, LFLF) {
      AtPrefix(a, b, i, CRLFCRLF);
      forall j: int | j <= i ensures At(a + b, j, CRLFCRLF) <==> At(a, j, CRLFCRLF) {
        AtPrefix(a, b, j, CRLFCRLF);
      }
      assert forall j :: At(a + b, j, LFLF) ==> j <= i;
    }
  }

  lemma FeedBehindBlock(a: string, b: string, cut: (nat, nat))
    requires NextBlock(a) == Some(cut) && NextBlock(a + b) == Some(cut)
    requires var first := Drain(a[cut.1..]); var second := Feed(first.1, b);
             Drain(a[cut.1..] + b) == (first.0 + second.0, second.1)
    ensures var first := Drain(a); var second := Feed(first.1, b);
            Drain(a + b) == (first.0 + second.0, second.1)
  {
    var t := a[cut.1..];
    DrainNext(a, cut);
    DrainNext(a + b, cut);
    assert (a + b)[cut.1..] == t + b && (a + b)[..cut.0] == a[..cut.0];
    ConsConcat(a[..cut.0], Drain(t).0, Feed(Drain(t).1, b).0);
  }

  lemma ConsConcat(x: string, a: seq<string>, b: seq<string>)
    ensures ([x] + a) + b == [x] + (a + b)
  {}

  /** Feeding a and then b cuts the same blocks and leaves the same rest as feeding a + b at once. */
  lemma {:induction false} FeedTwice(a: string, b: string)
    requires !MixesEndings(a + b)
    ensures var first := Drain(a); var second := Feed(first.1, b);
            Drain(a + b) == (first.0 + second.0, second.1)
    decreases |a|
  {
    match NextBlock(a)
    case None =>
      assert [] + Feed(a, b).0 == Feed(a, b).0;
    case Some(cut) =>
      FirstBlockStable(a, b);
      assert (a + b)[cut.1..] == a[cut.1..] + b;
      SuffixDoesNotMix(a + b, cut.1);
      FeedTwice(a[cut.1..], b);
      FeedBehindBlock(a, b, cut);
  }

  lemma {:induction false} DrainedRest(s: string)
    ensures NextBlock(Drain(s).1) == None
    decreases |s|
  {
    match NextBlock(s)
    case None =>
    case Some(cut) => DrainedRest(s[cut.1..]);
  }

  /** Any way of cutting a stream into chunks gives what the whole stream gives. */
  lemma {:induction false} ChunksDoNotMatter(left: string, chunks: seq<string>)
    requires !MixesEndings(left + Concat(chunks)) && NextBlock(left) == None
    ensures FeedAll(left, chunks) == Drain(left + Concat(chunks))
    decreases |chunks|
  {
    if chunks == [] {
      assert left + Concat(chunks) == left;
    } else {
      var a, b := left + chunks[0], Concat(chunks[1..]);
      assert left + Concat(chunks) == a + b;
      FeedTwice(a, b);
      DrainedRest(a);
      RestDoesNotMix(a, b);
      ChunksDoNotMatter(Drain(a).1, chunks[1..]);
    }
  }

  lemma {:induction false} RestDoesNotMix(a: string, b: string)
    requires !MixesEndings(a + b)
    ensures !MixesEndings(Drain(a).1 + b)
    decreases |a|
  {
    match NextBlock(a)
    case None =>
    case Some(cut) =>
      assert (a + b)[cut.1..] == a[cut.1..] + b;
      SuffixDoesNotMix(a + b, cut.1);
      RestDoesNotMix(a[cut.1..], b);
  }

  ghost predicate SplitsAlike(s: string, i: nat)
    requires i <= |s|
  {
    FeedAll("", [s[..i], s[i..]]) == Drain(s)
  }

  lemma FeedAllTwo(a: string, b: string)
    ensures FeedAll("", [a, b]) == (Drain(a).0 + Feed(Drain(a).1, b).0, Feed(Drain(a).1, b).1)
  {
    assert "" + a == a;
    assert [a, b][1..] == [b] && [b][1..] == [];
    var second := Feed(Drain(a).1, b);
    assert second.0 + FeedAll(second.1, []).0 == second.0;
  }

  /** A chunk that ends with a CRLF blank line in front of the first LF blank line is cut there; the whole is not. */
  lemma SplitAfterCrlf(s: string, i: nat, j: nat)
    requires First(s, CRLFCRLF) == Some(i) && First(s, LFLF) == Some(j) && i < j
    ensures !SplitsAlike(s, i + 4)
  {
    var a, b := s[..i + 4], s[i + 4..];
    assert s == a + b;
    CrAt(s, i);
    LfAt(s, j);
    forall k ensures !At(a, k, LFLF) {
      LfAt(a, k);
      LfAt(s, k);
    }
    forall k | k <= i ensures At(a, k, CRLFCRLF) <==> At(s, k, CRLFCRLF) { AtPrefix(a, b, k, CRLFCRLF); }
    FirstIs(a, CRLFCRLF, i);
    assert NextBlock(a) == Some((i, i + 4));
    FeedAllTwo(a, b);
    assert FeedAll("", [a, b]).0[0] == a[..i];
    assert Drain(s).0[0] == s[..j];
  }

  /** If some suffix behind a complete LF block splits differently, so does the whole. */
  lemma SplitBehindBlock(s: string, j: nat, k: nat)
    requires First(s, LFLF) == Some(j) && k <= |s| - (j + 2) && !SplitsAlike(s[j + 2..], k)
    ensures !SplitsAlike(s, j + 2 + k)
  {
    var t, a, b := s[j + 2..], s[..j + 2 + k], s[j + 2 + k..];
    assert s == a + b;
    forall m | m <= j ensures At(a, m, LFLF) <==> At(s, m, LFLF) { AtPrefix(a, b, m, LFLF); }
    FirstIs(a, LFLF, j);
    assert NextBlock(a) == Some((j, j + 2));
    assert a[..j] == s[..j] && a[j + 2..] == t[..k] && b == t[k..];
    DrainNext(a, (j, j + 2));
    DrainNext(s, (j, j + 2));
    FeedAllTwo(a, b);
    FeedAllTwo(t[..k], t[k..]);
    ConsDiffer(s[..j], Drain(t[..k]).0, Feed(Drain(t[..k]).1, t[k..]).0, Drain(t).0);
  }

  lemma ConsDiffer(x: string, a: seq<string>, b: seq<string>, c: seq<string>)
    ensures ([x] + a) + b == [x] + c <==> a + b == c
  {
    assert ([x] + a) + b == [x] + (a + b);
    assert ([x] + (a + b))[1..] == a + b && ([x] + c)[1..] == c;
  }

  lemma MixesBehind(s: string, lo: nat, ci: nat, cj: nat)
    requires At(s, ci, CRLFCRLF) && At(s, cj, LFLF) && lo <= ci < cj
    ensures MixesEndings(s[lo..])
  {
    AtSuffix(s, lo, ci - lo, CRLFCRLF);
    AtSuffix(s, lo, cj - lo, LFLF);
  }

  /**
   The first two kinds of blank line of a mixed stream: either the CRLF one comes first, or the rest is still
   mixed.
   */
  lemma MixedCases(s: string) returns (i: nat, j: nat)
    requires MixesEndings(s)
    ensures First(s, CRLFCRLF) == Some(i) && First(s, LFLF) == Some(j)
    ensures j + 2 <= |s| && (i < j || MixesEndings(s[j + 2..]))
  {
    var ci, cj :| At(s, ci, CRLFCRLF) && At(s, cj, LFLF) && ci < cj;
    j, i := First(s, LFLF).value, First(s, CRLFCRLF).value;
    if i >= j {
      LfAt(s, j);
      CrAt(s, i);
      CrAt(s, ci);
      MixesBehind(s, j + 2, ci, cj);
    }
  }

  lemma {:induction false} MixedSplitsDiffer(s: string) returns (k: nat)
    requires MixesEndings(s)
    ensures k <= |s| && !SplitsAlike(s, k)
    decreases |s|
  {
    var i, j := MixedCases(s);
    if i < j {
      SplitAfterCrlf(s, i, j);
      k := i + 4;
    } else {
      k := MixedSplitsDiffer(s[j + 2..]);
      SplitBehindBlock(s, j, k);
      k := j + 2 + k;
    }
  }

  /**
   Exactly which streams may be chunked freely: those in which no CRLF blank line stands before an LF
   blank line. Every LF-only stream is one.
   */
  lemma ChunkingIsSafe(s: string)
    ensures (forall i: nat :: i <= |s| ==> SplitsAlike(s, i)) <==> !MixesEndings(s)
  {
    if MixesEndings(s) {
      var _ := MixedSplitsDiffer(s);
    } else {
      forall i: nat | i <= |s| ensures SplitsAlike(s, i) {
        assert s == s[..i] + s[i..];
        FeedTwice(s[..i], s[i..]);
        FeedAllTwo(s[..i], s[i..]);
      }
    }
  }

  lemma LfOnlyDoesNotMix(s: string)
    requires '\r' !in s
    ensures !MixesEndings(s)
  {
    forall i ensures !At(s, i, CRLFCRLF) {
      CrAt(s, i);
    }
  }

  // ----------------------------------------------------------------- round trip

  predicate CleanText(s: string) {
    && '\n' !in s && '\r' !in s
    && (s != "" ==> !IsBlank(s[0]) && !IsBlank(s[|s| - 1]))
  }

  predicate Clean(e: Event) {
    CleanText(e.name) && CleanText(e.data)
  }

  lemma WireCutsAtEnd(e: Event, rest: string)
    requires Clean(e)
    ensures NextBlock(Wire(e) + rest) == Some((|Head(e)|, |Head(e)| + 2))
  {
    var s := Wire(e) + rest;
    var h := |Head(e)|;
    assert s[h..h + 2] == LFLF;
    forall j | 0 <= j < h ensures !At(s, j, LFLF) {
      LfAt(s, j);
      HeadHasOneLf(e, j);
      assert s[j] == Head(e)[j];
      if j + 1 < h {
        assert s[j + 1] == Head(e)[j + 1];
        HeadHasOneLf(e, j + 1);
      }
    }
    FirstIs(s, LFLF, h);
  }

  lemma HeadHasOneLf(e: Event, j: nat)
    requires Clean(e) && j < |Head(e)|
    ensures Head(e)[j] == '\n' <==> j == 7 + |e.name|
    ensures 7 + |e.name| + 1 < |Head(e)|
  {
    var n := |e.name|;
    if 7 <= j < 7 + n { assert Head(e)[j] == e.name[j - 7]; }
    if 7 + n + 7 <= j { assert Head(e)[j] == e.data[j - (7 + n + 7)]; }
  }

  /** The first of several lines is split off. */
  lemma LinesSplit(a: string, b: string)
    requires Unbroken(a) && (a != "" ==> a[|a| - 1] != '\r')
    ensures Lines(a + "\n" + b) == (if a == "" then [] else [a]) + Lines(b)
  {
    var s := a + "\n" + b;
    forall i | 0 <= i < |a| ensures !BreaksAt(s, i) { assert !BreaksAt(a, i); }
    assert BreaksAt(s, |a|);
    assert FirstBreak(s, 0) == |a| && s[..|a|] == a && s[|a| + 1..] == b;
  }

  lemma OneLine(s: string)
    requires Unbroken(s) && s != ""
    ensures Lines(s) == [s]
  {
    assert FirstBreak(s, 0) == |s| && s[..|s|] == s;
  }

  /** Field names and a space in front make no difference to where a text breaks. */
  lemma BreaksBehind(prefix: string, s: string, i: int)
    requires '\n' !in prefix && (prefix != "" ==> prefix[|prefix| - 1] != '\r')
    ensures BreaksAt(prefix + s, i) <==> BreaksAt(s, i - |prefix|)
  {}

  lemma UnbrokenBehind(prefix: string, s: string)
    requires '\n' !in prefix && (prefix != "" ==> prefix[|prefix| - 1] != '\r')
    ensures Unbroken(prefix + s) <==> Unbroken(s)
  {
    forall i ensures BreaksAt(prefix + s, i) <==> BreaksAt(s, i - |prefix|) { BreaksBehind(prefix, s, i); }
    if !Unbroken(s) {
      var i :| BreaksAt(s, i);
      assert BreaksAt(prefix + s, i + |prefix|);
    }
  }

  /** The event prints as one line for each of its two fields. */
  ghost predicate IsTwoLines(e: Event) {
    Unbroken(e.name) && Unbroken(e.data) && (e.name != "" ==> e.name[|e.name| - 1] != '\r')
  }

  lemma HeadLines(e: Event)
    requires IsTwoLines(e)
    ensures Lines(Head(e)) == ["event: " + e.name, "data: " + e.data]
  {
    UnbrokenBehind("event: ", e.name);
    UnbrokenBehind("data: ", e.data);
    assert Head(e) == ("event: " + e.name) + "\n" + ("data: " + e.data);
    LinesSplit("event: " + e.name, "data: " + e.data);
    OneLine("data: " + e.data);
  }

  lemma TrimsLeadingBlank(s: string)
    ensures Trim(" " + s) == Trim(s)
  {
    assert (" " + s)[1..] == s;
  }

  lemma NameLine(name: string)
    ensures var l := "event:" + name; "event:" <= l && l[6..] == name && !("data:" <= l)
  {
    var l := "event:" + name;
    assert l[6..] == name;
    assert l[0] == 'e';
  }

  lemma OneNameLine(name: string)
    ensures NameOf(["event:" + name]) == Trim(name) && DataOf(["event:" + name]) == []
  {
    var l := "event:" + name;
    var lines := [l];
    NameLine(name);
    assert lines[|lines| - 1] == l;
    assert lines[..|lines| - 1] == [];
    assert DataOf(lines) == DataOf([]);
  }

  lemma ParseTwoLines(name: string, data: string)
    ensures NameOf(["event:" + name, "data:" + data]) == Trim(name)
    ensures DataOf(["event:" + name, "data:" + data]) == [Trim(data)]
  {
    var l0, l1 := "event:" + name, "data:" + data;
    var lines := [l0, l1];
    assert lines[..|lines| - 1] == [l0];
    assert l1[5..] == data;
    assert l1[0] == 'd';
    OneNameLine(name);
    assert [] + [Trim(data)] == [Trim(data)];
  }

  /** What the client makes of one broadcast event: both fields come back without white space at their edges. */
  lemma ParsesTrimmed(e: Event)
    requires IsTwoLines(e)
    ensures Parse(Head(e)) == Event(Trim(e.name), Trim(e.data))
  {
    HeadLines(e);
    assert "event: " + e.name == "event:" + (" " + e.name) && "data: " + e.data == "data:" + (" " + e.data);
    ParseTwoLines(" " + e.name, " " + e.data);
    TrimsLeadingBlank(e.name);
    TrimsLeadingBlank(e.data);
  }

  // ---------------------------------------------- events that do not come back

  lemma PrefixUnbroken(s: string, n: nat)
    requires n <= |s| && forall i :: 0 <= i < n ==> !BreaksAt(s, i)
    ensures Unbroken(s[..n])
  {
    var t := s[..n];
    forall i ensures !BreaksAt(t, i) {
      if 0 <= i < n { assert !BreaksAt(s, i); }
    }
  }

  lemma {:induction false} TrimKeepsUnbroken(s: string)
    requires Unbroken(s)
    ensures Unbroken(Trim(s))
    decreases |s|
  {
    if s != "" && IsBlank(s[0]) {
      assert s == [s[0]] + s[1..];
      UnbrokenBehind([s[0]], s[1..]);
      TrimKeepsUnbroken(s[1..]);
    } else if s != "" && IsBlank(s[|s| - 1]) {
      PrefixUnbroken(s, |s| - 1);
      TrimKeepsUnbroken(s[..|s| - 1]);
    }
  }

  lemma {:induction false} LinesAreUnbroken(s: string)
    ensures forall l :: l in Lines(s) ==> Unbroken(l)
    decreases |s|
  {
    var i := FirstBreak(s, 0);
    PrefixUnbroken(s, i);
    if i < |s| { LinesAreUnbroken(s[i + 1..]); }
  }

  lemma {:induction false} NameIsUnbroken(lines: seq<string>)
    requires forall l :: l in lines ==> Unbroken(l)
    ensures Unbroken(NameOf(lines))
    decreases |lines|
  {
    if lines != [] {
      var l := lines[|lines| - 1];
      assert l in lines;
      if "event:" <= l {
        assert l == "event:" + l[6..];
        UnbrokenBehind("event:", l[6..]);
        TrimKeepsUnbroken(l[6..]);
      } else {
        NameIsUnbroken(lines[..|lines| - 1]);
      }
    }
  }

  /** The length of the lines with a line feed behind each. */
  function Size(lines: seq<string>): nat {
    if lines == [] then 0 else Size(lines[..|lines| - 1]) + |lines[|lines| - 1]| + 1
  }

  lemma {:induction false} SizeCons(l: string, lines: seq<string>)
    ensures Size([l] + lines) == |l| + 1 + Size(lines)
    decreases |lines|
  {
    var all := [l] + lines;
    if lines == [] {
      assert all[..0] == [];
    } else {
      assert all[..|all| - 1] == [l] + lines[..|lines| - 1];
      SizeCons(l, lines[..|lines| - 1]);
    }
  }

  lemma LinesOf(s: string, i: nat)
    requires i == FirstBreak(s, 0)
    ensures i == |s| ==> Lines(s) == if i == 0 then [] else [s]
    ensures i < |s| ==> Lines(s) == (if i == 0 then [] else [s[..i]]) + Lines(s[i + 1..])
  {
    if i == |s| { assert s[..i] == s; }
  }

  lemma {:induction false} LinesFit(s: string)
    ensures Size(Lines(s)) <= |s| + 1
    decreases |s|
  {
    var i := FirstBreak(s, 0);
    LinesOf(s, i);
    if i < |s| {
      LinesFit(s[i + 1..]);
      FirstLineFits(s[..i], Lines(s[i + 1..]));
    } else {
      FirstLineFits(s, []);
      assert [s] + [] == [s];
    }
  }

  lemma FirstLineFits(l: string, lines: seq<string>)
    ensures Size((if l == "" then [] else [l]) + lines) <= |l| + 1 + Size(lines)
  {
    if l == "" {
      assert [] + lines == lines;
    } else {
      SizeCons(l, lines);
    }
  }

  lemma {:induction false} TrimShortens(s: string)
    ensures |Trim(s)| <= |s|
    decreases |s|
  {
    if s != "" && IsBlank(s[0]) {
      TrimShortens(s[1..]);
    } else if s != "" && IsBlank(s[|s| - 1]) {
      TrimShortens(s[..|s| - 1]);
    }
  }

  /** Data lines lose their field names, so the data is shorter than the text it came from. */
  lemma {:induction false} DataFits(lines: seq<string>)
    ensures DataOf(lines) != [] ==> |Join(DataOf(lines))| + 6 <= Size(lines)
    decreases |lines|
  {
    if lines != [] {
      var before, l := lines[..|lines| - 1], lines[|lines| - 1];
      DataFits(before);
      if "data:" <= l {
        TrimShortens(l[5..]);
        var parts := DataOf(before);
        assert (parts + [Trim(l[5..])])[..|parts|] == parts;
      }
    }
  }

  lemma {:induction false} DataCons(l: string, lines: seq<string>)
    ensures DataOf([l] + lines) == (if "data:" <= l then [Trim(l[5..])] else []) + DataOf(lines)
    decreases |lines|
  {
    var all := [l] + lines;
    if lines == [] {
      assert all[..0] == [];
    } else {
      assert all[..|all| - 1] == [l] + lines[..|lines| - 1];
      DataCons(l, lines[..|lines| - 1]);
    }
  }

  lemma {:induction false} JoinCons(x: string, parts: seq<string>)
    ensures |Join([x] + parts)| == |x| + if parts == [] then 0 else 1 + |Join(parts)|
    decreases |parts|
  {
    var all := [x] + parts;
    if parts != [] {
      assert all[..|all| - 1] == [x] + parts[..|parts| - 1];
      JoinCons(x, parts[..|parts| - 1]);
    }
  }

  /** The data found in the lines of `rest`, behind at most one shorter piece of data. */
  lemma DataBehind(piece: seq<string>, rest: string)
    requires |piece| <= 1
    ensures |Join(piece + DataOf(Lines(rest)))| <= (if piece == [] then 0 else |piece[0]|) + |rest|
  {
    var parts := DataOf(Lines(rest));
    DataFits(Lines(rest));
    LinesFit(rest);
    if piece == [] {
      assert piece + parts == parts;
    } else {
      assert piece == [piece[0]];
      JoinCons(piece[0], parts);
    }
  }

  /** The data of a text is the data of its first line and then that of the rest. */
  lemma DataOfLines(p: string, rest: string)
    requires Unbroken(p) && p != "" && p[|p| - 1] != '\r'
    ensures DataOf(Lines(p + "\n" + rest)) == (if "data:" <= p then [Trim(p[5..])] else []) + DataOf(Lines(rest))
  {
    LinesSplit(p, rest);
    DataCons(p, Lines(rest));
  }

  lemma DataBehindData(first: string, rest: string)
    requires Unbroken(first) && (first != "" ==> first[|first| - 1] != '\r')
    ensures |Join(DataOf(Lines("data: " + first + "\n" + rest)))| <= |first| + |rest|
  {
    var p := "data: " + first;
    UnbrokenBehind("data: ", first);
    DataOfLines(p, rest);
    FirstData(first);
    DataBehind([Trim(p[5..])], rest);
  }

  lemma FirstData(first: string)
    ensures |Trim(("data: " + first)[5..])| <= |first|
  {
    assert ("data: " + first)[5..] == " " + first;
    TrimsLeadingBlank(first);
    TrimShortens(first);
  }

  lemma DataBehindOther(p: string, rest: string)
    requires Unbroken(p) && p != "" && p[|p| - 1] != '\r' && !("data:" <= p)
    ensures DataOf(Lines(p + "\n" + rest)) == DataOf(Lines(rest))
    ensures |Join(DataOf(Lines(p + "\n" + rest)))| <= |rest|
  {
    DataOfLines(p, rest);
    DataBehind([], rest);
    assert [] + DataOf(Lines(rest)) == DataOf(Lines(rest));
  }

  lemma {:induction false} TrimKeepsInside(s: string, c: char)
    requires !IsBlank(c)
    ensures var t := Trim(s + [c]); t != "" && t[|t| - 1] == c
    decreases |s|
  {
    var all := s + [c];
    if s != "" && IsBlank(s[0]) {
      assert all[1..] == s[1..] + [c];
      TrimKeepsInside(s[1..], c);
    }
  }

  /** A name that ends in a carriage return swallows the data line. */
  lemma CrNameIsLost(e: Event)
    requires Unbroken(e.name) && Unbroken(e.data) && e.name != "" && e.name[|e.name| - 1] == '\r'
    ensures Parse(Head(e)) != e
  {
    var h := Head(e);
    var name, data := "event: " + e.name, "data: " + e.data;
    UnbrokenBehind("event: ", e.name);
    UnbrokenBehind("data: ", e.data);
    UnbrokenAcrossCrlf(name, data);
    assert h == name + "\n" + data;
    OneLine(h);
    assert h == "event:" + h[6..];
    OneNameLine(h[6..]);
    if e.data == "" {
      var inner := " " + e.name + "\n" + "data";
      assert "data: " == ("data" + [':']) + " ";
      assert h == "event:" + ((inner + [':']) + " ");
      assert h[6..] == (inner + [':']) + " ";
      TrimsTrailingBlank(inner + [':']);
      TrimKeepsInside(inner, ':');
    }
  }

  lemma {:induction false} TrimsTrailingBlank(s: string)
    ensures Trim(s + " ") == Trim(s)
    decreases |s|
  {
    var all := s + " ";
    if s == "" {
      assert all[1..] == "";
    } else if IsBlank(s[0]) {
      assert all[1..] == s[1..] + " ";
      TrimsTrailingBlank(s[1..]);
    } else {
      assert all[..|all| - 1] == s;
    }
  }

  /** Exactly which blocks parse back: two lines, and no white space at the edges of their fields. */
  lemma BlockParsesBackIff(e: Event)
    ensures Parse(Head(e)) == e <==> IsTwoLines(e) && Trim(e.name) == e.name && Trim(e.data) == e.data
  {
    if IsTwoLines(e) {
      ParsesTrimmed(e);
    } else if !Unbroken(e.name) {
      LinesAreUnbroken(Head(e));
      NameIsUnbroken(Lines(Head(e)));
    } else if !Unbroken(e.data) {
      BrokenDataIsLost(e);
    } else {
      CrNameIsLost(e);
    }
  }

  /** A break in the data cuts some of it off, even where the name swallows the data line. */
  lemma BrokenDataIsLost(e: Event)
    requires Unbroken(e.name) && !Unbroken(e.data)
    ensures Parse(Head(e)) != e
  {
    var i := FirstBreak(e.data, 0);
    var k :| BreaksAt(e.data, k);
    assert i < |e.data|;
    var first, rest := e.data[..i], e.data[i + 1..];
    assert e.data == first + "\n" + rest;
    PrefixUnbroken(e.data, i);
    if e.name != "" && e.name[|e.name| - 1] == '\r' {
      SwallowedData(e.name, first, rest);
    } else {
      SeparateData(e.name, first, rest);
    }
  }

  lemma SwallowedData(name: string, first: string, rest: string)
    requires Unbroken(name) && name != "" && name[|name| - 1] == '\r'
    requires Unbroken(first) && (first != "" ==> first[|first| - 1] != '\r')
    ensures |Join(DataOf(Lines(Head(Event(name, first + "\n" + rest)))))| <= |rest|
  {
    var p := "event: " + name + "\n" + ("data: " + first);
    UnbrokenBehind("event: ", name);
    UnbrokenBehind("data: ", first);
    UnbrokenAcrossCrlf("event: " + name, "data: " + first);
    assert Head(Event(name, first + "\n" + rest)) == p + "\n" + rest;
    assert p[0] == 'e';
    DataBehindOther(p, rest);
  }

  lemma SeparateData(name: string, first: string, rest: string)
    requires Unbroken(name) && (name != "" ==> name[|name| - 1] != '\r')
    requires Unbroken(first) && (first != "" ==> first[|first| - 1] != '\r')
    ensures |Join(DataOf(Lines(Head(Event(name, first + "\n" + rest)))))| <= |first| + |rest|
  {
    var p, later := "event: " + name, "data: " + first + "\n" + rest;
    UnbrokenBehind("event: ", name);
    assert Head(Event(name, first + "\n" + rest)) == p + "\n" + later;
    assert p[0] == 'e';
    DataBehindOther(p, later);
    DataBehindData(first, rest);
  }

  lemma UnbrokenAcrossCrlf(a: string, b: string)
    requires Unbroken(a) && Unbroken(b) && a != "" && a[|a| - 1] == '\r'
    ensures Unbroken(a + "\n" + b)
  {
    var s := a + "\n" + b;
    forall i ensures !BreaksAt(s, i) {
      assert !BreaksAt(a, i) && !BreaksAt(b, i - |a| - 1);
      assert 0 <= i < |a| ==> s[i] == a[i];
      assert |a| < i < |s| ==> s[i] == b[i - |a| - 1];
    }
  }

  /** White space at the edge of a field is lost. */
  lemma EdgeSpaceIsLost()
    ensures Parse(Head(Event("seat", " A1"))) == Event("seat", "A1")
  {
    var e, clean := Event("seat", " A1"), Event("seat", "A1");
    ParsesTrimmed(e);
    CleanIsTwoLines(clean);
    TrimsLeadingBlank(clean.data);
  }

  /** A block whose lines end in CRLF is not split into lines: its data becomes part of the event name. */
  lemma CrlfBlockIsOneLine(e: Event)
    requires IsTwoLines(e)
    ensures Parse("event: " + e.name + "\r\n" + "data: " + e.data)
            == Event(Trim(e.name + "\r\n" + "data: " + e.data), "")
  {
    var tail := e.name + "\r\n" + "data: " + e.data;
    var h := "event:" + (" " + tail);
    assert "event: " + e.name + "\r\n" + "data: " + e.data == h;
    UnbrokenBehind("data: ", e.data);
    var cr := e.name + "\r";
    forall i ensures !BreaksAt(cr, i) { assert !BreaksAt(e.name, i); }
    UnbrokenAcrossCrlf(cr, "data: " + e.data);
    assert tail == cr + "\n" + ("data: " + e.data);
    UnbrokenBehind("event: ", tail);
    assert h == "event: " + tail;
    OneLine(h);
    OneNameLine(" " + tail);
    TrimsLeadingBlank(tail);
  }

  // ---------------------------------------------- what the client delivers of one event

  /** The client delivers exactly the event, however its bytes are cut, and keeps nothing back. */
  ghost predicate ComesBack(e: Event) {
    forall chunks :: Concat(chunks) == Wire(e) ==> ParseAll(FeedAll("", chunks).0) == [e] && FeedAll("", chunks).1 == ""
  }

  lemma OneChunk(s: string)
    ensures Concat([s]) == s && FeedAll("", [s]) == Drain(s)
  {
    assert [s][1..] == [] && s + "" == s && "" + s == s;
    assert Drain(s).0 + [] == Drain(s).0;
  }

  lemma TwoChunks(a: string, b: string)
    ensures Concat([a, b]) == a + b
  {
    assert [a, b][1..] == [b];
    OneChunk(b);
  }

  lemma WireEnds(e: Event)
    ensures At(Wire(e), |Head(e)|, LFLF)
    ensures First(Wire(e), LFLF).Some? && First(Wire(e), LFLF).value <= |Head(e)|
  {
    var s, h := Wire(e), |Head(e)|;
    assert s[h..h + 2] == LFLF;
    FirstIsBefore(s, LFLF, h);
  }

  lemma FirstIsBefore(s: string, pat: string, i: nat)
    requires At(s, i, pat)
    ensures First(s, pat).Some? && First(s, pat).value <= i
  {}

  lemma OneBlock(s: string)
    requires First(s, LFLF).Some? && |Drain(s).0| == 1 && Drain(s).1 == ""
    ensures First(s, LFLF).value + 2 == |s| && Drain(s).0 == [s[..|s| - 2]]
  {
    var i := First(s, LFLF).value;
    DrainNext(s, (i, i + 2));
    var later := Drain(s[i + 2..]);
    assert |[s[..i]] + later.0| == 1 + |later.0|;
    NothingDrained(s[i + 2..]);
  }

  lemma NothingDrained(s: string)
    requires Drain(s).0 == []
    ensures Drain(s).1 == s
  {}

  lemma EmptyParts(a: string, b: string)
    requires a + b == ""
    ensures a == "" && b == ""
  {
    assert |a + b| == |a| + |b|;
  }

  lemma OnlyFirst(p: seq<string>, q: seq<string>)
    requires |p + q| == 1 && p != []
    ensures q == []
  {}

  /** What two chunks are cut into, given what the first is cut into and what the second is with the rest. */
  lemma FeedTwoParts(a: string, b: string, first: (seq<string>, string), second: (seq<string>, string))
    requires Drain(a) == first && Drain(first.1 + b) == second
    ensures FeedAll("", [a, b]) == (first.0 + second.0, second.1)
  {
    FeedAllTwo(a, b);
  }

  lemma NothingInFirst(a: string, b: string, second: (seq<string>, string))
    requires Drain(a).0 == [] && Drain(Drain(a).1 + b) == second
    ensures Drain(a + b) == second
  {
    NothingDrained(a);
  }

  lemma NothingInSecond(a: string, b: string, first: (seq<string>, string))
    requires Drain(a) == first && Drain(first.1 + b) == ([], "")
    ensures Drain(a + b) == first
  {
    NothingDrained(first.1 + b);
    EmptyParts(first.1, b);
    assert a + b == a;
  }

  /** One block and nothing left over: then the cut made no difference. */
  lemma SingleBlockSplit(a: string, b: string, first: (seq<string>, string), second: (seq<string>, string))
    requires Drain(a) == first && Drain(first.1 + b) == second
    requires |first.0 + second.0| == 1 && second.1 == ""
    ensures Drain(a + b) == (first.0 + second.0, second.1)
  {
    if first.0 == [] {
      NothingInFirst(a, b, second);
      assert [] + second.0 == second.0;
    } else {
      OnlyFirst(first.0, second.0);
      NothingInSecond(a, b, first);
      assert first.0 + [] == first.0;
    }
  }

  lemma ComesBackWhole(e: Event)
    requires ComesBack(e)
    ensures First(Wire(e), LFLF) == Some(|Head(e)|) && Drain(Wire(e)) == ([Head(e)], "") && Parse(Head(e)) == e
  {
    OneChunk(Wire(e));
    WireEnds(e);
    OneBlock(Wire(e));
    assert Wire(e)[..|Wire(e)| - 2] == Head(e);
    assert ParseAll([Head(e)])[0] == Parse(Head(e));
  }

  lemma SameLength(blocks: seq<string>)
    ensures |ParseAll(blocks)| == |blocks|
  {}

  lemma ComesBackUnmixed(e: Event)
    requires ComesBack(e)
    ensures !MixesEndings(Wire(e))
  {
    if MixesEndings(Wire(e)) {
      var k := MixedSplitsDiffer(Wire(e));
      ComesBackInTwo(e, Wire(e)[..k], Wire(e)[k..]);
    }
  }

  lemma ComesBackInTwo(e: Event, a: string, b: string)
    requires ComesBack(e) && a + b == Wire(e)
    ensures FeedAll("", [a, b]) == Drain(Wire(e))
  {
    TwoChunks(a, b);
    var first := Drain(a);
    var second := Drain(first.1 + b);
    FeedTwoParts(a, b, first, second);
    SameLength(first.0 + second.0);
    SingleBlockSplit(a, b, first, second);
  }

  lemma CutOnceAtEnd(e: Event)
    requires First(Wire(e), LFLF) == Some(|Head(e)|) && Parse(Head(e)) == e
    ensures ParseAll(Drain(Wire(e)).0) == [e] && Drain(Wire(e)).1 == ""
  {
    var s, h := Wire(e), |Head(e)|;
    DrainNext(s, (h, h + 2));
    assert s[..h] == Head(e) && s[h + 2..] == "";
    assert NextBlock("") == None;
    assert [Head(e)] + [] == [Head(e)];
  }

  /** No blank line ends the event early, and none of the other kind is in it. */
  ghost predicate IsOneBlock(e: Event) {
    First(Wire(e), LFLF) == Some(|Head(e)|) && !MixesEndings(Wire(e))
  }

  /**
   Exactly which events the client delivers as they were sent under every chunking: those that are one block of two
   lines, with no white space at the edges of their fields.
   */
  lemma ComesBackIff(e: Event)
    ensures ComesBack(e) <==> IsOneBlock(e) && IsTwoLines(e) && Trim(e.name) == e.name && Trim(e.data) == e.data
  {
    BlockParsesBackIff(e);
    if ComesBack(e) {
      ComesBackWhole(e);
      ComesBackUnmixed(e);
    } else if IsOneBlock(e) && Parse(Head(e)) == e {
      CutOnceAtEnd(e);
      forall chunks | Concat(chunks) == Wire(e)
        ensures ParseAll(FeedAll("", chunks).0) == [e] && FeedAll("", chunks).1 == ""
      {
        assert "" + Concat(chunks) == Wire(e);
        assert NextBlock("") == None;
        ChunksDoNotMatter("", chunks);
      }
    }
  }

  /** A name that ends in a line feed makes a blank line with the one behind it, which cuts the event. */
  lemma NameEndingInLfIsCut(e: Event)
    requires e.name != "" && e.name[|e.name| - 1] == '\n'
    ensures !ComesBack(e)
  {
    var s, i := Wire(e), 6 + |e.name|;
    var name := "event: " + e.name;
    assert s[..|name|] == name && name[i] == e.name[|e.name| - 1];
    assert s[i] == name[i] == '\n' && s[i + 1] == '\n' && i < |Head(e)|;
    LfAt(s, i);
    FirstIsBefore(s, LFLF, i);
    ComesBackIff(e);
  }

  lemma PrintsAsTwoLines(e: Event)
    requires e == Event("a\r\n", "x")
    ensures IsTwoLines(e) && Trim(e.name) == e.name && Trim(e.data) == e.data
  {}

  /** Two lines are not enough: a name that ends in CRLF parses back as one block, but is not delivered so. */
  lemma TwoLinesAreNotEnough(e: Event)
    requires e == Event("a\r\n", "x")
    ensures Parse(Head(e)) == e && !ComesBack(e)
  {
    PrintsAsTwoLines(e);
    BlockParsesBackIff(e);
    NameEndingInLfIsCut(e);
  }

  // ------------------------------------------------------ blocks of many lines

  /** Trimming takes spaces and tabs off both ends, all of them and nothing else. */
  lemma {:induction false} TrimIsExact(s: string) returns (lead: string, trail: string)
    ensures s == lead + Trim(s) + trail
    ensures forall c :: c in lead + trail ==> c == ' ' || c == '\t'
    ensures var t := Trim(s); t != "" ==> t[0] !in [' ', '\t'] && t[|t| - 1] !in [' ', '\t']
    decreases |s|
  {
    lead, trail := "", "";
    if s != "" && IsBlank(s[0]) {
      var more;
      more, trail := TrimIsExact(s[1..]);
      assert s == [s[0]] + s[1..];
      assert forall c :: c in more ==> c in more + trail;
      assert forall c :: c in trail ==> c in more + trail;
      lead := [s[0]] + more;
    } else if s != "" && IsBlank(s[|s| - 1]) {
      var more;
      lead, more := TrimIsExact(s[..|s| - 1]);
      assert s == s[..|s| - 1] + [s[|s| - 1]];
      assert forall c :: c in lead ==> c in lead + more;
      assert forall c :: c in more ==> c in lead + more;
      trail := more + [s[|s| - 1]];
    }
  }

  /** Texts with a line feed between each two. */
  function Text(lines: seq<string>): string {
    if lines == [] then ""
    else if |lines| == 1 then lines[0]
    else lines[0] + "\n" + Text(lines[1..])
  }

  /** A text without line feeds that does not lend a carriage return to the next one. */
  predicate IsLine(l: string) { '\n' !in l && (l != "" ==> l[|l| - 1] != '\r') }

  function NonEmpty(lines: seq<string>): seq<string> {
    if lines == [] then [] else (if lines[0] == "" then [] else [lines[0]]) + NonEmpty(lines[1..])
  }

  lemma {:induction false} TextSplits(lines: seq<string>)
    requires forall l :: l in lines ==> IsLine(l)
    ensures Lines(Text(lines)) == NonEmpty(lines)
    decreases |lines|
  {
    if |lines| == 1 {
      assert NonEmpty(lines[1..]) == [] && IsLine(lines[0]);
      assert Unbroken(lines[0]);
      if lines[0] != "" { OneLine(lines[0]); }
    } else if |lines| > 1 {
      assert IsLine(lines[0]);
      LinesSplit(lines[0], Text(lines[1..]));
      TextSplits(lines[1..]);
    }
  }

  /** The trimmed values of the "data:" lines, in order. */
  function DataValues(lines: seq<string>): seq<string> {
    if lines == [] then []
    else (if "data:" <= lines[0] then [Trim(lines[0][5..])] else []) + DataValues(lines[1..])
  }

  lemma {:induction false} DataOfNonEmpty(lines: seq<string>)
    ensures DataOf(NonEmpty(lines)) == DataValues(lines)
    decreases |lines|
  {
    if lines != [] {
      DataOfNonEmpty(lines[1..]);
      if lines[0] == "" {
        assert [] + NonEmpty(lines[1..]) == NonEmpty(lines[1..]);
      } else {
        DataCons(lines[0], NonEmpty(lines[1..]));
      }
    }
  }

  lemma TextSnoc(parts: seq<string>, last: string)
    requires parts != []
    ensures Text(parts + [last]) == Text(parts) + "\n" + last
    decreases |parts|
  {
    assert (parts + [last])[1..] == parts[1..] + [last];
    if |parts| > 1 { TextSnoc(parts[1..], last); }
  }

  lemma {:induction false} JoinIsText(parts: seq<string>)
    ensures Join(parts) == Text(parts)
    decreases |parts|
  {
    if |parts| > 1 {
      JoinIsText(parts[..|parts| - 1]);
      TextSnoc(parts[..|parts| - 1], parts[|parts| - 1]);
      assert parts == parts[..|parts| - 1] + [parts[|parts| - 1]];
    }
  }

  /** The trimmed values of the "event:" lines, in order. */
  function NameValues(lines: seq<string>): seq<string> {
    if lines == [] then []
    else (if "event:" <= lines[0] then [Trim(lines[0][6..])] else []) + NameValues(lines[1..])
  }

  lemma {:induction false} NameValuesSnoc(lines: seq<string>, l: string)
    ensures NameValues(lines + [l]) == NameValues(lines) + if "event:" <= l then [Trim(l[6..])] else []
    decreases |lines|
  {
    var all := lines + [l];
    if lines == [] {
      assert all[1..] == [];
    } else {
      assert all[1..] == lines[1..] + [l];
      NameValuesSnoc(lines[1..], l);
    }
  }

  function LastOr(values: seq<string>, default: string): string {
    if values == [] then default else values[|values| - 1]
  }

  lemma {:induction false} NameIsLastValue(lines: seq<string>)
    ensures NameOf(lines) == LastOr(NameValues(lines), "message")
    decreases |lines|
  {
    if lines != [] {
      var init, last := lines[..|lines| - 1], lines[|lines| - 1];
      assert lines == init + [last];
      NameIsLastValue(init);
      NameValuesSnoc(init, last);
      assert NameValues(init) + [] == NameValues(init);
    }
  }

  lemma {:induction false} NamesOfNonEmpty(lines: seq<string>)
    ensures NameValues(NonEmpty(lines)) == NameValues(lines)
    decreases |lines|
  {
    if lines != [] {
      NamesOfNonEmpty(lines[1..]);
      if lines[0] == "" {
        assert [] + NonEmpty(lines[1..]) == NonEmpty(lines[1..]);
      } else {
        var all := [lines[0]] + NonEmpty(lines[1..]);
        assert all[1..] == NonEmpty(lines[1..]);
      }
    }
  }

  /**
   What the client makes of a block of any lines: the name is the trimmed value of the last "event:" line, or "message"
   if there is none; the data are the trimmed values of all "data:" lines, in order, with line feeds between them; all
   other lines are passed over.
   */
  lemma BlockIsExact(lines: seq<string>)
    requires forall l :: l in lines ==> IsLine(l)
    ensures var e := Parse(Text(lines));
            e.name == LastOr(NameValues(lines), "message") && e.data == Text(DataValues(lines))
  {
    TextSplits(lines);
    NamesOfNonEmpty(lines);
    NameIsLastValue(NonEmpty(lines));
    DataOfNonEmpty(lines);
    JoinIsText(DataValues(lines));
  }

  // ------------------------------------------------------------ whole streams

  lemma CleanIsTwoLines(e: Event)
    requires Clean(e)
    ensures IsTwoLines(e) && Trim(e.name) == e.name && Trim(e.data) == e.data
  {}

  lemma ParsesBack(e: Event)
    requires Clean(e)
    ensures Parse(Head(e)) == e
  {
    CleanIsTwoLines(e);
    ParsesTrimmed(e);
  }

  lemma {:induction false} WireDrains(es: seq<Event>)
    requires forall e :: e in es ==> Clean(e)
    ensures ParseAll(Drain(WireAll(es)).0) == es && Drain(WireAll(es)).1 == ""
    decreases |es|
  {
    if es == [] {
      assert NextBlock("") == None;
    } else {
      var e, s, rest := es[0], WireAll(es), WireAll(es[1..]);
      assert Clean(e);
      WireCutsAtEnd(e, rest);
      DrainNext(s, (|Head(e)|, |Head(e)| + 2));
      assert s[..|Head(e)|] == Head(e) && s[|Head(e)| + 2..] == rest;
      WireDrains(es[1..]);
      ParsesBack(e);
      ParseAllConcat([Head(e)], Drain(rest).0);
      assert ParseAll([Head(e)]) == [e];
    }
  }

  lemma {:induction false} WireHasNoCr(es: seq<Event>)
    requires forall e :: e in es ==> Clean(e)
    ensures '\r' !in WireAll(es)
    decreases |es|
  {
    if es != [] {
      assert Clean(es[0]);
      WireHasNoCr(es[1..]);
    }
  }

  /** Whatever the chunks, the client delivers exactly the broadcast events and keeps nothing back. */
  lemma BroadcastRoundTrip(es: seq<Event>, chunks: seq<string>)
    requires (forall e :: e in es ==> Clean(e)) && Concat(chunks) == WireAll(es)
    ensures ParseAll(FeedAll("", chunks).0) == es && FeedAll("", chunks).1 == ""
  {
    WireHasNoCr(es);
    LfOnlyDoesNotMix(WireAll(es));
    assert "" + Concat(chunks) == Concat(chunks);
    ChunksDoNotMatter("", chunks);
    WireDrains(es);
  }
}
