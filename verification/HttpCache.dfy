/**
 Conditional requests to the static file server (src/static_files.rs, serve_file) and the
 coherence of a client's cache. Modification times are in nanoseconds; the ETag and both
 date headers carry whole seconds.
 */
module HttpCache {
  import opened Prelude
  import opened Decimal

  datatype File = File(body: seq<Octet>, mtime: nat) {
    function Seconds(): nat { mtime / SECOND }
  }

  /** `since` is an If-Modified-Since header that parses, in seconds. */
  datatype Request = Request(head: bool, noneMatch: Option<string>, since: Option<nat>)

  datatype Response =
    | NotModified
    | HeadOk(length: nat, etag: string)
    | Ok(body: seq<Octet>, etag: string, lastModified: nat)

  function ETag(f: File): string {
    "\"" + Print(|f.body|) + "-" + Print(f.Seconds()) + "\""
  }

  function Full(f: File, head: bool): Response {
    if head then HeadOk(|f.body|, ETag(f)) else Ok(f.body, ETag(f), f.Seconds())
  }

  /** The date test compares the file's full time with the header's whole seconds. */
  predicate NotModifiedSince(f: File, since: nat) {
    f.mtime <= since * SECOND
  }

  function ServeFile(f: File, req: Request): Response {
    if req.noneMatch == Some(ETag(f)) then NotModified
    else if req.since.Some? && NotModifiedSince(f, req.since.value) then NotModified
    else Full(f, req.head)
  }

  /** Section 13.1.3 of RFC 9110: If-Modified-Since is ignored when If-None-Match is present. */
  function ServeByRfc(f: File, req: Request): Response {
    match req.noneMatch
    case Some(tag) => if tag == ETag(f) then NotModified else Full(f, req.head)
    case None => ServeFile(f, req)
  }

  // ---------------------------------------------------------------------------------
  // What the ETag identifies
  // ---------------------------------------------------------------------------------

  lemma DashSplits(a: string, b: string, c: string, d: string)
    requires a + "-" + b == c + "-" + d
    requires '-' !in a && '-' !in c
    ensures a == c && b == d
  {
    var s, t := a + "-" + b, c + "-" + d;
    assert s[|a|] == '-' && t[|c|] == '-';
    assert s[..|a|] == a && t[..|c|] == c;
    FirstBound(s, '-', |a|, |c|);
    FirstBound(s, '-', |c|, |a|);
    assert s[|a| + 1..] == b && t[|c| + 1..] == d;
  }

  ghost predicate SameStamp(v: File, f: File) {
    |v.body| == |f.body| && v.Seconds() == f.Seconds()
  }

  /** Two ETags are equal exactly when length and whole second of modification are. */
  lemma ETagIdentifiesStamp(v: File, f: File)
    ensures ETag(v) == ETag(f) <==> SameStamp(v, f)
  {
    if ETag(v) == ETag(f) {
      var (a, b, c, d) := (Print(|v.body|), Print(v.Seconds()), Print(|f.body|), Print(f.Seconds()));
      assert ETag(v)[1..|ETag(v)| - 1] == a + "-" + b;
      assert ETag(f)[1..|ETag(f)| - 1] == c + "-" + d;
      DashSplits(a, b, c, d);
      PrintIsInjective(|v.body|, |f.body|);
      PrintIsInjective(v.Seconds(), f.Seconds());
    }
  }

  /** What a client keeps of a full response. */
  datatype Cached = Cached(body: seq<Octet>, etag: string, date: nat)

  /** The conditional request of a client that echoes the validators it keeps. */
  function Echo(c: Cached, useTag: bool, useDate: bool): Request {
    Request(false, if useTag then Some(c.etag) else None, if useDate then Some(c.date) else None)
  }

  /** A client's entry for version `v` of the file. */
  ghost predicate IsCopyOf(c: Cached, v: File) {
    c.body == v.body && c.etag == ETag(v) && c.date == v.Seconds()
  }

  /** The file is no newer than the whole second that version `v` was stamped with. */
  ghost predicate NotNewer(v: File, f: File) {
    f.mtime <= v.Seconds() * SECOND
  }

  /** When a client with a copy of `v` is told that `f` is not modified, by this server and by the standard. */
  lemma NotModifiedIff(c: Cached, v: File, f: File, useTag: bool, useDate: bool)
    requires IsCopyOf(c, v)
    ensures ServeFile(f, Echo(c, useTag, useDate)).NotModified?
       <==> (useTag && SameStamp(v, f)) || (useDate && NotNewer(v, f))
    ensures ServeByRfc(f, Echo(c, useTag, useDate)).NotModified?
       <==> if useTag then SameStamp(v, f) else useDate && NotNewer(v, f)
  {
    ETagIdentifiesStamp(v, f);
  }

  /** The same for any request, in plain numbers: times are nanoseconds, the header's date is in seconds. */
  lemma NotModifiedByPlainRule(f: File, req: Request)
    ensures ServeFile(f, req).NotModified?
       <==> req.noneMatch == Some(ETag(f)) || (req.since.Some? && f.mtime <= req.since.value * 1_000_000_000)
    ensures ServeByRfc(f, req).NotModified?
       <==> if req.noneMatch.Some? then req.noneMatch == Some(ETag(f))
            else req.since.Some? && f.mtime <= req.since.value * 1_000_000_000
  {}

  /** The tag is the quoted length and whole second of modification, in decimal with a dash between them. */
  lemma ETagReadsBack(f: File) returns (length: string, second: string)
    ensures ETag(f) == "\"" + length + "-" + second + "\"" && IsCanonical(length) && IsCanonical(second)
    ensures Value(length) == |f.body| && Value(second) == f.mtime / 1_000_000_000
  {
    length, second := Print(|f.body|), Print(f.Seconds());
    PrintIsCanonical(|f.body|);
    PrintIsCanonical(f.Seconds());
    ValueOfPrint(|f.body|);
    ValueOfPrint(f.Seconds());
  }

  /** HEAD is answered as GET is: not modified in the same cases, else with the body's length and the same tag. */
  lemma HeadMirrorsGet(f: File, req: Request)
    requires !req.head
    ensures var (get, head) := (ServeFile(f, req), ServeFile(f, req.(head := true)));
            match get
            case NotModified => head.NotModified?
            case Ok(body, etag, date) =>
              && body == f.body && etag == ETag(f) && date == f.mtime / 1_000_000_000
              && head == HeadOk(|body|, etag)
            case HeadOk(_, _) => false
  {}

  // ---------------------------------------------------------------------------------
  // Runs
  // ---------------------------------------------------------------------------------

  /** The client fetches while version `at` of the file is current, echoing what it holds. */
  datatype Fetch = Fetch(at: nat, useTag: bool, useDate: bool)

  function Answer(rfc: bool, f: File, req: Request): Response {
    if rfc then ServeByRfc(f, req) else ServeFile(f, req)
  }

  /** What the client keeps after its fetches. */
  function Holds(rfc: bool, versions: seq<File>, fetches: seq<Fetch>): Option<Cached>
    requires forall i | 0 <= i < |fetches| :: fetches[i].at < |versions|
  {
    if fetches == [] then None
    else
      var n := |fetches| - 1;
      var before := Holds(rfc, versions, fetches[..n]);
      var req := match before
                 case None => Request(false, None, None)
                 case Some(c) => Echo(c, fetches[n].useTag, fetches[n].useDate);
      match Answer(rfc, versions[fetches[n].at], req)
      case Ok(body, etag, date) => Some(Cached(body, etag, date))
      case _ => before
  }

  /** Fetches of a history of versions: in order of time, each echoing as `both` allows. */
  ghost predicate Ordered(versions: seq<File>, fetches: seq<Fetch>, both: bool) {
    && (forall i | 0 <= i < |fetches| ::
          fetches[i].at < |versions| && (both ==> fetches[i].useTag && fetches[i].useDate))
    && forall i, j | 0 <= i <= j < |fetches| :: fetches[i].at <= fetches[j].at
  }

  ghost predicate Current(rfc: bool, versions: seq<File>, fetches: seq<Fetch>)
    requires fetches != [] && forall i | 0 <= i < |fetches| :: fetches[i].at < |versions|
  {
    var held := Holds(rfc, versions, fetches);
    held.Some? && held.value.body == versions[fetches[|fetches| - 1].at].body
  }

  /** After every run of fetches, in any interleaving with the writes, the client shows the current body. */
  ghost predicate Coherent(rfc: bool, versions: seq<File>, both: bool) {
    forall fetches | fetches != [] && Ordered(versions, fetches, both) :: Current(rfc, versions, fetches)
  }

  /** May version `v` be confirmed as current when `f` is? */
  ghost predicate Confirmed(rfc: bool, both: bool, v: File, f: File) {
    SameStamp(v, f) || (!(rfc && both) && NotNewer(v, f))
  }

  ghost predicate Truthful(rfc: bool, both: bool, versions: seq<File>) {
    forall i, j | 0 <= i <= j < |versions| ::
      Confirmed(rfc, both, versions[i], versions[j]) ==> versions[i].body == versions[j].body
  }

  lemma {:induction false} HeldVersionIsPast(rfc: bool, versions: seq<File>, fetches: seq<Fetch>, both: bool)
    returns (i: nat)
    requires fetches != [] && Ordered(versions, fetches, both)
    ensures i <= fetches[|fetches| - 1].at && Holds(rfc, versions, fetches).Some?
    ensures IsCopyOf(Holds(rfc, versions, fetches).value, versions[i])
  {
    var n := |fetches| - 1;
    i := fetches[n].at;
    if n > 0 {
      var before := HeldVersionIsPast(rfc, versions, fetches[..n], both);
      var c := Holds(rfc, versions, fetches[..n]).value;
      if Answer(rfc, versions[i], Echo(c, fetches[n].useTag, fetches[n].useDate)).NotModified? {
        i := before;
      }
    }
  }

  lemma TruthfulRunsAreCurrent(rfc: bool, versions: seq<File>, fetches: seq<Fetch>, both: bool)
    requires fetches != [] && Ordered(versions, fetches, both) && Truthful(rfc, both, versions)
    ensures Current(rfc, versions, fetches)
  {
    var n := |fetches| - 1;
    var e := fetches[n];
    if n > 0 {
      var i := HeldVersionIsPast(rfc, versions, fetches[..n], both);
      assert fetches[n - 1].at <= e.at;
      NotModifiedIff(Holds(rfc, versions, fetches[..n]).value, versions[i], versions[e.at], e.useTag, e.useDate);
    }
  }

  lemma UntruthfulRun(rfc: bool, versions: seq<File>, both: bool, i: nat, j: nat)
    requires i <= j < |versions| && versions[i].body != versions[j].body
    requires Confirmed(rfc, both, versions[i], versions[j])
    ensures !Coherent(rfc, versions, both)
  {
    var useTag := both || SameStamp(versions[i], versions[j]);
    var fetches := [Fetch(i, both, both), Fetch(j, useTag, both || !useTag)];
    assert fetches[..1] == [Fetch(i, both, both)] && fetches[..1][..0] == [];
    var c := Cached(versions[i].body, ETag(versions[i]), versions[i].Seconds());
    assert Holds(rfc, versions, fetches[..1]) == Some(c);
    NotModifiedIff(c, versions[i], versions[j], useTag, both || !useTag);
    assert Ordered(versions, fetches, both);
    assert Holds(rfc, versions, fetches) == Some(c);
    assert !Current(rfc, versions, fetches);
  }

  /**
   Exactly which histories of a file are safe to cache, for this server and for one that
   follows the standard, and for clients that echo any headers or always both: every run
   is coherent iff no version can be confirmed in place of a later one with another body.
   */
  lemma CoherentIff(rfc: bool, versions: seq<File>, both: bool)
    ensures Coherent(rfc, versions, both) <==> Truthful(rfc, both, versions)
  {
    if Truthful(rfc, both, versions) {
      forall fetches | fetches != [] && Ordered(versions, fetches, both)
        ensures Current(rfc, versions, fetches)
      {
        TruthfulRunsAreCurrent(rfc, versions, fetches, both);
      }
    } else {
      var i, j :| 0 <= i <= j < |versions| && Confirmed(rfc, both, versions[i], versions[j])
                  && versions[i].body != versions[j].body;
      UntruthfulRun(rfc, versions, both, i, j);
    }
  }

  /** Whole seconds never go back, and every change of the body moves them forward. */
  ghost predicate SecondsAdvance(versions: seq<File>) {
    forall i | 0 < i < |versions| ::
      && versions[i - 1].Seconds() <= versions[i].Seconds()
      && (versions[i - 1].body != versions[i].body ==> versions[i - 1].Seconds() < versions[i].Seconds())
  }

  lemma {:induction false} SecondsAdvanceFrom(versions: seq<File>, i: nat, j: nat)
    requires SecondsAdvance(versions) && i <= j < |versions|
    ensures versions[i].Seconds() <= versions[j].Seconds()
    ensures versions[i].Seconds() == versions[j].Seconds() ==> versions[i].body == versions[j].body
  {
    if i < j {
      SecondsAdvanceFrom(versions, i, j - 1);
    }
  }

  /** If every change of the body moves the whole second forward, every client is coherent. */
  lemma AdvancingSecondsAreCoherent(versions: seq<File>, both: bool)
    requires SecondsAdvance(versions)
    ensures Coherent(false, versions, both)
  {
    forall i, j | 0 <= i <= j < |versions| && Confirmed(false, both, versions[i], versions[j])
      ensures versions[i].body == versions[j].body
    {
      SecondsAdvanceFrom(versions, i, j);
    }
    CoherentIff(false, versions, both);
  }

  /** Distinct bodies always differ in length or whole second of modification. */
  ghost predicate StampsDiffer(versions: seq<File>) {
    forall i, j | 0 <= i <= j < |versions| ::
      SameStamp(versions[i], versions[j]) ==> versions[i].body == versions[j].body
  }

  /**
   For clients that echo both headers, the standard needs only distinct stamps. Falling
   through to the date needs more: a file replaced by an older one is answered "not
   modified" although its ETag differs.
   */
  lemma FallThroughNeedsMore(versions: seq<File>)
    ensures Coherent(true, versions, true) <==> StampsDiffer(versions)
    ensures exists older :: StampsDiffer(older) && Coherent(true, older, true) && !Coherent(false, older, true)
  {
    CoherentIff(true, versions, true);
    var older := [File([0, 0], 10 * SECOND), File([0], 5 * SECOND)];
    assert StampsDiffer(older);
    CoherentIff(true, older, true);
    CoherentIff(false, older, true);
    assert Confirmed(false, true, older[0], older[1]);
    assert older[0].body != older[1].body;
  }
}
