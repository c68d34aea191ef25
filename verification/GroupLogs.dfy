/** Paged group synchronisation (pkg/signal/group_logs.go, internal/web/groups_logs.go) and the
    cache of group revisions (pkg/signal/group_revision.go). */
module GroupLogs {
  import opened Wrappers
  import opened Decimal

  type Revision = x: int | 0 <= x < 0x1_0000_0000

  const MAX_PAGES := 256

  // ----- The Content-Range header

  const PREFIX := "versions "

  predicate IsSpace(c: char) {
    c == ' ' || '\t' <= c <= '\r' || c as int == 0x85 || c as int == 0xA0
  }

  function TrimSpace(s: string): string {
    if s != "" && IsSpace(s[0]) then TrimSpace(s[1..])
    else if s != "" && IsSpace(s[|s| - 1]) then TrimSpace(s[..|s| - 1])
    else s
  }

  /** strings.IndexByte */
  function IndexOf(s: string, c: char): (i: int)
    ensures -1 <= i < |s|
  {
    if s == "" then -1
    else if s[0] == c then 0
    else
      var i := IndexOf(s[1..], c);
      if i < 0 then -1 else i + 1
  }

  /** The text between the first dash and the first slash */
  function RangeEnd(rest: string): Option<string> {
    var dash, slash := IndexOf(rest, '-'), IndexOf(rest, '/');
    if dash < 0 || slash < 0 || dash >= slash then None else Some(rest[dash + 1..slash])
  }

  /** The revision after the last one of the page; uint32 addition wraps. */
  function NextGroupLogRevision(contentRange: string): Option<Revision> {
    var h := TrimSpace(contentRange);
    if h == "" || !(PREFIX <= h) then None
    else
      var last := RangeEnd(h[|PREFIX|..]);
      if last.None? then None
      else
        match ParseUint32(last.value)
        case Invalid => None
        case Value(end) => Some((end + 1) % 0x1_0000_0000)
  }

  /** The header of a page that covers revisions first..last of a log of `total` */
  function RangeHeader(first: string, last: string, total: string): string {
    PREFIX + (first + "-" + last + "/" + total)
  }

  lemma {:induction false} IndexOfFirst(a: string, c: char, b: string)
    requires c !in a
    ensures IndexOf(a + [c] + b, c) == |a|
  {
    var s := a + [c] + b;
    if a != "" {
      assert s[1..] == a[1..] + [c] + b;
      IndexOfFirst(a[1..], c, b);
    }
  }

  lemma HeaderRest(f: string, l: string, t: string)
    requires IsDigits(f) && IsDigits(l)
    ensures RangeEnd(f + "-" + l + "/" + t) == Some(l)
  {
    var rest := f + "-" + l + "/" + t;
    assert rest == f + ['-'] + (l + "/" + t);
    assert rest == (f + "-" + l) + ['/'] + t;
    IndexOfFirst(f, '-', l + "/" + t);
    IndexOfFirst(f + "-" + l, '/', t);
    assert rest[|f| + 1..|f| + 1 + |l|] == l;
  }

  lemma HeaderParts(h: string, rest: string, l: string)
    requires rest != "" && '0' <= rest[|rest| - 1] <= '9' && h == PREFIX + rest
    requires RangeEnd(rest) == Some(l)
    ensures NextGroupLogRevision(h) ==
      match ParseUint32(l) { case Invalid => None case Value(end) => Some((end + 1) % 0x1_0000_0000) }
  {
    assert h[0] == 'v' && h[|h| - 1] == rest[|rest| - 1];
    assert h[|PREFIX|..] == rest;
  }

  /** The parser reads back what the server writes. */
  lemma HeaderRoundTrip(first: string, last: string, total: string, header: string)
    requires IsDigits(first) && IsDigits(last) && IsDigits(total) && total != ""
    requires header == RangeHeader(first, last, total)
    ensures NextGroupLogRevision(header) ==
      match ParseUint32(last) { case Invalid => None case Value(end) => Some((end + 1) % 0x1_0000_0000) }
  {
    var rest := first + "-" + last + "/" + total;
    HeaderRest(first, last, total);
    assert rest[|rest| - 1] == total[|total| - 1];
    HeaderParts(header, rest, last);
  }

  /** White space is taken off both ends, and all of it. */
  lemma {:induction false} Trimmed(s: string) returns (i: nat, j: nat)
    ensures i <= j <= |s| && TrimSpace(s) == s[i..j]
    ensures forall k :: 0 <= k < |s| && !(i <= k < j) ==> IsSpace(s[k])
    ensures i < j ==> !IsSpace(s[i]) && !IsSpace(s[j - 1])
  {
    hide IsSpace;
    if s != "" && IsSpace(s[0]) {
      i, j := Trimmed(s[1..]);
      assert s[1..][i..j] == s[i + 1..j + 1];
      forall k | 0 <= k < |s| && !(i + 1 <= k < j + 1) ensures IsSpace(s[k]) {
        if k > 0 { assert s[k] == s[1..][k - 1]; }
      }
      i, j := i + 1, j + 1;
    } else if s != "" && IsSpace(s[|s| - 1]) {
      i, j := Trimmed(s[..|s| - 1]);
      assert s[..|s| - 1][i..j] == s[i..j];
    } else {
      i, j := 0, |s|;
      assert s[0..|s|] == s;
    }
  }

  lemma {:induction false} IndexFound(s: string, c: char)
    ensures var i := IndexOf(s, c); if i < 0 then c !in s else s[i] == c && c !in s[..i]
  {
    if s != "" && s[0] != c {
      IndexFound(s[1..], c);
      var i := IndexOf(s[1..], c);
      if i >= 0 { assert s[..i + 1] == [s[0]] + s[1..][..i]; }
    }
  }

  /** The header says versions first-last/total: `last` is between the first dash and the first
      slash; what `first` and `total` are is not looked at. */
  ghost predicate Says(h: string, first: string, last: string, total: string) {
    h == "versions " + (first + "-" + last + "/" + total) && '-' !in first && '/' !in first && '/' !in last
  }

  lemma SaysRange(rest: string, first: string, last: string, total: string)
    requires rest == first + "-" + last + "/" + total && '-' !in first && '/' !in first && '/' !in last
    ensures RangeEnd(rest) == Some(last)
  {
    assert rest == first + ['-'] + (last + "/" + total);
    assert rest == (first + "-" + last) + ['/'] + total;
    IndexOfFirst(first, '-', last + "/" + total);
    IndexOfFirst(first + "-" + last, '/', total);
    assert rest[|first| + 1..|first| + 1 + |last|] == last;
  }

  lemma RangeSays(rest: string) returns (first: string, last: string, total: string)
    requires RangeEnd(rest).Some?
    ensures last == RangeEnd(rest).value && Says(PREFIX + rest, first, last, total)
  {
    IndexFound(rest, '-');
    IndexFound(rest, '/');
    var dash, slash := IndexOf(rest, '-'), IndexOf(rest, '/');
    first, last, total := rest[..dash], rest[dash + 1..slash], rest[slash + 1..];
    assert rest == first + "-" + last + "/" + total;
    assert forall c :: c in first || c in last ==> c in rest[..slash];
  }

  lemma PrefixDropped(rest: string)
    ensures |PREFIX + rest| >= |PREFIX| && (PREFIX + rest)[|PREFIX|..] == rest && PREFIX <= PREFIX + rest
  {}

  lemma SaysOneRange(h: string, first: string, last: string, total: string)
    requires Says(h, first, last, total)
    ensures h != "" && PREFIX <= h && RangeEnd(h[|PREFIX|..]) == Some(last)
  {
    var rest := first + "-" + last + "/" + total;
    PrefixDropped(rest);
    SaysRange(rest, first, last, total);
  }

  /** The number `next` is the one after a header's `last`, wrapping after the largest. */
  ghost predicate Follows(last: string, next: Revision) {
    ParseUint32(last).Value? && next == (ParseUint32(last).value + 1) % 0x1_0000_0000
  }

  /** A header that says so, white space at the ends aside, is read as what it says. */
  lemma HeaderIsRead(contentRange: string, first: string, last: string, total: string, next: Revision)
    requires Says(TrimSpace(contentRange), first, last, total)
    ensures NextGroupLogRevision(contentRange) == Some(next) <==> Follows(last, next)
  {
    hide TrimSpace, ParseUint32, RangeEnd, Says;
    SaysOneRange(TrimSpace(contentRange), first, last, total);
  }

  /** No other header is accepted. */
  lemma AcceptedHeader(contentRange: string) returns (first: string, last: string, total: string)
    requires NextGroupLogRevision(contentRange).Some?
    ensures Says(TrimSpace(contentRange), first, last, total)
  {
    hide TrimSpace, ParseUint32, RangeEnd, Says;
    var h := TrimSpace(contentRange);
    first, last, total := RangeSays(h[|PREFIX|..]);
    assert PREFIX + h[|PREFIX|..] == h;
  }

  // ----- The server

  datatype GroupState = GroupState(revision: Revision, expireTimer: nat, body: nat)

  /** One change: the group state it leads to, and whether the log carries that state. */
  datatype Entry = Entry(state: GroupState, attached: bool)

  datatype Request = Request(from: Revision, cachedExpiration: int, includeFirst: bool, includeLast: bool)

  datatype Page = Page(states: seq<Option<GroupState>>, gse: Option<nat>, partial: bool, contentRange: string) | PageError

  /** A server with a fixed log that answers some requests with a part of the rest of the log
      and then reports the range covered. `cut(p, from)` is the last revision of page p if
      partial; `honours` is whether it adds the first and last states it is asked for; `gse` and
      `fails` are the endorsements on page p and whether the request fails. */
  datatype Server = Server(
    log: seq<Entry>,
    cut: (nat, nat) -> Option<nat>,
    honours: bool,
    gse: nat -> Option<nat>,
    fails: nat -> bool)

  /** Every revision, and the one after the last, is a uint32. */
  predicate Representable(srv: Server) {
    |srv.log| < 0x1_0000_0000
  }

  predicate IsPartial(srv: Server, p: nat, from: nat) {
    srv.cut(p, from).Some? && from <= srv.cut(p, from).value < |srv.log|
  }

  /** The first revision after page p */
  function PageEnd(srv: Server, p: nat, from: nat): (end: nat)
    requires from <= |srv.log|
    ensures from <= end <= |srv.log|
  {
    if IsPartial(srv, p, from) then srv.cut(p, from).value + 1 else |srv.log|
  }

  function Shown(srv: Server, i: nat, from: nat, end: nat, req: Request): Option<GroupState>
    requires i < |srv.log|
  {
    var wanted := srv.honours && ((req.includeFirst && i == from) || (req.includeLast && i == end - 1));
    if srv.log[i].attached || wanted then Some(srv.log[i].state) else None
  }

  function Serve(srv: Server, p: nat, req: Request): Page {
    if srv.fails(p) || req.from > |srv.log| then PageError
    else
      var end := PageEnd(srv, p, req.from);
      var states := seq(end - req.from, i requires 0 <= i < end - req.from =>
        Shown(srv, req.from + i, req.from, end, req));
      Page(states, srv.gse(p), IsPartial(srv, p, req.from),
           if IsPartial(srv, p, req.from) then RangeHeader(Itoa(req.from), Itoa(end - 1), Itoa(|srv.log|)) else "")
  }

  /** The last state in a list of entries, which is what reading a log in one go selects */
  function LastState(states: seq<Option<GroupState>>): Option<GroupState> {
    if states == [] then None
    else if states[|states| - 1].Some? then states[|states| - 1]
    else LastState(states[..|states| - 1])
  }

  /** The log from one revision to another, as carried by the log itself */
  function Carried(log: seq<Entry>, from: nat, end: nat): (r: seq<Option<GroupState>>)
    requires from <= end <= |log|
    ensures |r| == end - from
  {
    seq(end - from, i requires 0 <= i < end - from =>
      if log[from + i].attached then Some(log[from + i].state) else None)
  }

  function Prefer<T>(newer: Option<T>, older: Option<T>): Option<T> {
    if newer.Some? then newer else older
  }

  lemma {:induction false} LastStateConcat(a: seq<Option<GroupState>>, b: seq<Option<GroupState>>)
    ensures LastState(a + b) == Prefer(LastState(b), LastState(a))
  {
    if b == [] {
      assert a + b == a;
    } else {
      assert (a + b)[..|a + b| - 1] == a + b[..|b| - 1];
      LastStateConcat(a, b[..|b| - 1]);
    }
  }

  // ----- The paging loop

  datatype Collected =
    | Collected(latest: Option<GroupState>, gse: Option<nat>, requests: seq<Request>, next: Revision, complete: bool)
    | CollectFailed

  /** Where the page after p starts, or the position reached after the last page */
  function NextFrom(requests: seq<Request>, next: nat, p: nat): nat {
    if p + 1 < |requests| then requests[p + 1].from else next
  }

  /** The requests ask for consecutive parts of the log: each starts where the page before it
      ended, so the pages tile [from, next). */
  ghost predicate TilesLog(srv: Server, requests: seq<Request>, from: nat, next: nat) {
    && (requests == [] ==> next == from)
    && (requests != [] ==> requests[0].from == from)
    && (forall p: nat {:trigger NextFrom(requests, next, p)} :: p < |requests| ==>
          && requests[p].from <= |srv.log|
          && PageEnd(srv, p, requests[p].from) == NextFrom(requests, next, p))
  }

  /** The snapshot that reading [from, next) in one go selects */
  function Snapshot(srv: Server, from: nat, next: nat): Option<GroupState>
    requires from <= next <= |srv.log|
  {
    if !srv.honours then LastState(Carried(srv.log, from, next))
    else if next == from then None
    else Some(srv.log[next - 1].state)
  }

  lemma PageKeepsLatest(srv: Server, p: nat, req: Request, latest: Option<GroupState>, from: nat)
    requires from <= req.from <= |srv.log| && req.includeLast && Serve(srv, p, req).Page?
    requires latest == Snapshot(srv, from, req.from)
    ensures Prefer(LastState(Serve(srv, p, req).states), latest) == Snapshot(srv, from, PageEnd(srv, p, req.from))
  {
    var end := PageEnd(srv, p, req.from);
    var states := Serve(srv, p, req).states;
    assert |states| == end - req.from;
    forall i | 0 <= i < |states| ensures states[i] == Shown(srv, req.from + i, req.from, end, req) {
    }
    if srv.honours {
      assert states != [] ==> states[|states| - 1] == Some(srv.log[end - 1].state);
    } else {
      assert states == Carried(srv.log, req.from, end);
      assert Carried(srv.log, from, end) == Carried(srv.log, from, req.from) + states;
      LastStateConcat(Carried(srv.log, from, req.from), states);
    }
  }

  method LastOf(states: seq<Option<GroupState>>, before: Option<GroupState>) returns (latest: Option<GroupState>)
    ensures latest == Prefer(LastState(states), before)
  {
    latest := before;
    for i := 0 to |states|
      invariant latest == Prefer(LastState(states[..i]), before)
    {
      assert states[..i + 1][..i] == states[..i];
      if states[i].Some? {
        latest := states[i];
      }
    }
    assert states[..|states|] == states;
  }

  /** The endorsements of the last page that has any */
  function LastGse(srv: Server, pages: nat): (gse: Option<nat>)
    ensures gse.None? ==> forall p :: 0 <= p < pages ==> srv.gse(p).None?
    ensures gse.Some? ==> exists p :: 0 <= p < pages && srv.gse(p) == gse && forall q :: p < q < pages ==> srv.gse(q).None?
  {
    if pages == 0 then None else Prefer(srv.gse(pages - 1), LastGse(srv, pages - 1))
  }

  /** What the loop has established after a number of pages */
  ghost predicate Progress(srv: Server, from: nat, expiration: int, requests: seq<Request>, next: nat,
                           latest: Option<GroupState>, gse: Option<nat>)
  {
    && from <= next <= |srv.log|
    && TilesLog(srv, requests, from, next)
    && latest == Snapshot(srv, from, next)
    && gse == LastGse(srv, |requests|)
    && forall p :: 0 <= p < |requests| ==>
         requests[p] == Request(requests[p].from, if p == 0 then expiration else 0, p == 0, true)
  }

  lemma TilesGrow(srv: Server, requests: seq<Request>, from: nat, req: Request, end: nat)
    requires TilesLog(srv, requests, from, req.from)
    requires req.from <= |srv.log| && end == PageEnd(srv, |requests|, req.from)
    ensures TilesLog(srv, requests + [req], from, end)
  {
    var more := requests + [req];
    forall p: nat | p < |more|
      ensures more[p].from <= |srv.log| && PageEnd(srv, p, more[p].from) == NextFrom(more, end, p)
    {
      if p < |requests| {
        var start := NextFrom(requests, req.from, p);
        assert more[p] == requests[p];
      }
    }
  }

  lemma PageProgress(srv: Server, from: nat, expiration: int, requests: seq<Request>, latest: Option<GroupState>,
                     gse: Option<nat>, req: Request, page: Page)
    requires Progress(srv, from, expiration, requests, req.from, latest, gse)
    requires req == Request(req.from, if requests == [] then expiration else 0, requests == [], true)
    requires page == Serve(srv, |requests|, req) && page.Page?
    ensures Progress(srv, from, expiration, requests + [req], PageEnd(srv, |requests|, req.from),
                     Prefer(LastState(page.states), latest), Prefer(page.gse, gse))
  {
    PageKeepsLatest(srv, |requests|, req, latest, from);
    TilesGrow(srv, requests, from, req, PageEnd(srv, |requests|, req.from));
    var more := requests + [req];
    assert forall p: nat :: p < |requests| ==> more[p] == requests[p];
    assert more[..|requests|] == requests;
  }

  lemma PartialPageHeader(srv: Server, p: nat, req: Request)
    requires Serve(srv, p, req).Page? && Serve(srv, p, req).partial
    ensures Serve(srv, p, req).contentRange ==
      RangeHeader(Itoa(req.from), Itoa(PageEnd(srv, p, req.from) - 1), Itoa(|srv.log|))
    ensures req.from < PageEnd(srv, p, req.from) <= |srv.log|
  {
  }

  /** From the header of a partial page the parser reads where the page ended. */
  lemma PartialPageEnd(srv: Server, p: nat, req: Request)
    requires Representable(srv) && Serve(srv, p, req).Page? && Serve(srv, p, req).partial
    ensures NextGroupLogRevision(Serve(srv, p, req).contentRange) == Some(PageEnd(srv, p, req.from))
  {
    hide Serve, NextGroupLogRevision, RangeHeader, PageEnd, Itoa, ParseUint32, DigitsValue;
    PartialPageHeader(srv, p, req);
    var last := PageEnd(srv, p, req.from) - 1;
    ItoaRoundTrip(last);
    HeaderRoundTrip(Itoa(req.from), Itoa(last), Itoa(|srv.log|), Serve(srv, p, req).contentRange);
  }

  /** FetchGroupLogs: one page, with the next revision read from its header when it is partial */
  method FetchGroupLogs(srv: Server, p: nat, req: Request) returns (page: Page, next: Revision)
    requires Representable(srv)
    ensures page == Serve(srv, p, req)
    ensures page.Page? && page.partial ==> next == PageEnd(srv, p, req.from)
  {
    hide NextGroupLogRevision;
    page := Serve(srv, p, req);
    next := 0;
    if page.Page? && page.partial {
      PartialPageEnd(srv, p, req);
      next := NextGroupLogRevision(page.contentRange).value;
    }
  }

  /** How reading page after page ends: at a revision after some number of pages, because the
      server said so or because no more pages are asked for, or with a failed request */
  datatype End = Reached(next: nat, pages: nat, complete: bool) | Failed

  function ReadThrough(srv: Server, p: nat, from: nat, left: nat): (e: End)
    requires from <= |srv.log|
    ensures e.Reached? ==>
      && from <= e.next <= |srv.log| && p <= e.pages <= p + left
      && if e.complete then e.next == |srv.log| else e.pages == p + left
    decreases left
  {
    if left == 0 then Reached(from, p, false)
    else if srv.fails(p) then Failed
    else if IsPartial(srv, p, from) then ReadThrough(srv, p + 1, PageEnd(srv, p, from), left - 1)
    else Reached(|srv.log|, p + 1, true)
  }

  lemma ReadOnePage(srv: Server, p: nat, from: nat, left: nat)
    requires from <= |srv.log| && left > 0
    ensures ReadThrough(srv, p, from, left) ==
      if srv.fails(p) then Failed
      else if IsPartial(srv, p, from) then ReadThrough(srv, p + 1, PageEnd(srv, p, from), left - 1)
      else Reached(|srv.log|, p + 1, true)
  {}

  lemma NoPagesLeft(srv: Server, p: nat, from: nat)
    requires from <= |srv.log|
    ensures ReadThrough(srv, p, from, 0) == Reached(from, p, false)
  {}

  lemma NothingReadYet(srv: Server, from: nat, expiration: int)
    requires from <= |srv.log|
    ensures Progress(srv, from, expiration, [], from, None, None)
  {
    assert Carried(srv.log, from, from) == [];
  }

  lemma ProgressStays(srv: Server, from: nat, expiration: int, requests: seq<Request>, next: nat,
                      latest: Option<GroupState>, gse: Option<nat>)
    requires Progress(srv, from, expiration, requests, next, latest, gse)
    ensures from <= next <= |srv.log|
  {}

  /** Partial pages each hold at least one entry: a reading that stops for want of pages has read
      as many revisions as pages, and a rest no longer than that is read to the end. */
  lemma {:induction false} PagesAdvance(srv: Server, p: nat, from: nat, left: nat)
    requires from <= |srv.log| && ReadThrough(srv, p, from, left).Reached?
    ensures !ReadThrough(srv, p, from, left).complete ==> ReadThrough(srv, p, from, left).next >= from + left
    ensures |srv.log| - from <= left ==> ReadThrough(srv, p, from, left).next == |srv.log|
    decreases left
  {
    if left > 0 && IsPartial(srv, p, from) {
      PagesAdvance(srv, p + 1, PageEnd(srv, p, from), left - 1);
    }
  }

  /** The body of SyncGroup's loop: one page, the last state in it, its endorsements */
  method ReadPage(srv: Server, p: nat, req: Request, latest: Option<GroupState>, gse: Option<nat>,
                  ghost from: nat, ghost expiration: int, ghost requests: seq<Request>)
    returns (r: Option<(Option<GroupState>, Option<nat>, bool)>, next: Revision)
    requires Representable(srv) && |requests| == p
    requires req == Request(req.from, if requests == [] then expiration else 0, requests == [], true)
    requires req.from <= |srv.log| ==> Progress(srv, from, expiration, requests, req.from, latest, gse)
    ensures r.None? <==> req.from > |srv.log| || srv.fails(p)
    ensures r.Some? ==>
      && r.value.2 == IsPartial(srv, p, req.from)
      && next == PageEnd(srv, p, req.from)
      && Progress(srv, from, expiration, requests + [req], next, r.value.0, r.value.1)
  {
    var page, after := FetchGroupLogs(srv, p, req);
    if page.PageError? {
      return None, 0;
    }
    PageProgress(srv, from, expiration, requests, latest, gse, req, page);
    var last := LastOf(page.states, latest);
    var endorsements := if page.gse.Some? then page.gse else gse;
    return Some((last, endorsements, page.partial)), if page.partial then after else |srv.log|;
  }

  /** SyncGroup's loop. Whatever the page sizes: the pages tile the log from the first revision to
      the one reached, at most 256 requests are made, the snapshot is the one that reading this
      part of the log in one go selects, and the loop fails exactly on a failing request or a
      start beyond the log. */
  method CollectPages(srv: Server, from: Revision, cachedExpiration: int) returns (r: Collected)
    requires Representable(srv)
    ensures r.CollectFailed? <==> from > |srv.log| || ReadThrough(srv, 0, from, MAX_PAGES).Failed?
    ensures r.Collected? ==>
      && ReadThrough(srv, 0, from, MAX_PAGES) == Reached(r.next, |r.requests|, r.complete)
      && Progress(srv, from, cachedExpiration, r.requests, r.next, r.latest, r.gse)
      && 1 <= |r.requests| <= 256 && (!r.complete ==> |r.requests| == 256)
  {
    hide ReadThrough, Progress;
    var latest: Option<GroupState>, gse: Option<nat> := None, None;
    var revision: Revision, expiration := from, cachedExpiration;
    var requests: seq<Request> := [];
    if from <= |srv.log| {
      NothingReadYet(srv, from, cachedExpiration);
    }
    for pageNum := 0 to MAX_PAGES
      invariant |requests| == pageNum
      invariant expiration == if requests == [] then cachedExpiration else 0
      invariant requests == [] ==> revision == from && latest == None && gse == None
      invariant requests != [] ==> from <= |srv.log|
      invariant from <= |srv.log| ==> revision <= |srv.log|
      invariant from <= |srv.log| ==>
        && Progress(srv, from, cachedExpiration, requests, revision, latest, gse)
        && ReadThrough(srv, 0, from, MAX_PAGES) == ReadThrough(srv, pageNum, revision, MAX_PAGES - pageNum)
    {
      var req := Request(revision, expiration, pageNum == 0, true);
      if from <= |srv.log| {
        ReadOnePage(srv, pageNum, revision, MAX_PAGES - pageNum);
      }
      var page, next := ReadPage(srv, pageNum, req, latest, gse, from, cachedExpiration, requests);
      if page.None? {
        return CollectFailed;
      }
      latest, gse := page.value.0, page.value.1;
      requests := requests + [req];
      ProgressStays(srv, from, cachedExpiration, requests, next, latest, gse);
      if !page.value.2 {
        return Collected(latest, gse, requests, next, true);
      }
      revision, expiration := next, 0;
    }
    NoPagesLeft(srv, MAX_PAGES, revision);
    return Collected(latest, gse, requests, revision, false);
  }

  // ----- What a sync returns

  datatype Answer = Answer(state: GroupState, gse: Option<nat>)

  function StateOf(answer: Option<Answer>): Option<GroupState> {
    if answer.Some? then Some(answer.value.state) else None
  }

  /** The state a sync returns: the snapshot of what was read if it can be decrypted, and what
      FetchGroup answers if nothing read carries one. */
  function Synced(srv: Server, from: nat, decodes: GroupState -> bool, fallback: Option<Answer>): Option<GroupState> {
    if from > |srv.log| then None
    else
      match ReadThrough(srv, 0, from, MAX_PAGES)
      case Failed => None
      case Reached(next, _, _) =>
        match Snapshot(srv, from, next)
        case None => StateOf(fallback)
        case Some(state) => if decodes(state) then Some(state) else None
  }

  /** When the server ends the log within 256 pages, of whatever size, or there are no more than 256
      revisions, a sync that works returns the last state of the whole log. */
  lemma SyncReadsWholeLog(srv: Server, from: nat, decodes: GroupState -> bool, fallback: Option<Answer>)
    requires from <= |srv.log| && ReadThrough(srv, 0, from, MAX_PAGES).Reached?
    requires ReadThrough(srv, 0, from, MAX_PAGES).complete || |srv.log| - from <= MAX_PAGES
    ensures srv.honours && from < |srv.log| ==>
      var last := srv.log[|srv.log| - 1].state;
      Synced(srv, from, decodes, fallback) == if decodes(last) then Some(last) else None
    ensures !srv.honours ==>
      var last := LastState(Carried(srv.log, from, |srv.log|));
      Synced(srv, from, decodes, fallback) ==
        if last.None? then StateOf(fallback) else if decodes(last.value) then last else None
  {
    hide ReadThrough, Carried, LastState;
    PagesAdvance(srv, 0, from, MAX_PAGES);
  }

  lemma {:induction false} CarriedStates(log: seq<Entry>, from: nat, end: nat)
    requires from <= end <= |log| && LastState(Carried(log, from, end)).Some?
    ensures exists i :: from <= i < end && log[i].state == LastState(Carried(log, from, end)).value
    decreases end
  {
    if from < end {
      var states := Carried(log, from, end);
      assert states[..|states| - 1] == Carried(log, from, end - 1);
      if states[|states| - 1].Some? {
        assert log[end - 1].state == LastState(states).value;
      } else {
        CarriedStates(log, from, end - 1);
      }
    }
  }

  /** When the 256th page is still partial the sync stops there, although the log may go on: it
      returns, as a success, the last state carried up to that page, the one after the page if the
      server adds it, and asks FetchGroup only if there is none. */
  lemma LongLogIsCutShort(srv: Server, from: nat, decodes: GroupState -> bool, fallback: Option<Answer>)
    requires from <= |srv.log| && ReadThrough(srv, 0, from, MAX_PAGES).Reached?
    requires !ReadThrough(srv, 0, from, MAX_PAGES).complete
    ensures var next := ReadThrough(srv, 0, from, MAX_PAGES).next;
            var read := Snapshot(srv, from, next);
            && from + MAX_PAGES <= next <= |srv.log|
            && (read.None? ==> Synced(srv, from, decodes, fallback) == StateOf(fallback))
            && (read.Some? ==>
                  && Synced(srv, from, decodes, fallback) == (if decodes(read.value) then read else None)
                  && exists i :: from <= i < next && srv.log[i].state == read.value)
            && (srv.honours ==> read == Some(srv.log[next - 1].state))
  {
    hide ReadThrough, Carried, LastState;
    PagesAdvance(srv, 0, from, MAX_PAGES);
    var next := ReadThrough(srv, 0, from, MAX_PAGES).next;
    if !srv.honours && Snapshot(srv, from, next).Some? {
      CarriedStates(srv.log, from, next);
    } else if srv.honours {
      assert srv.log[next - 1].state == Snapshot(srv, from, next).value;
    }
  }

  /** Whenever no request fails and states can be decrypted, a sync from within the log succeeds,
      with FetchGroup to fall back on. */
  lemma {:induction false} NoFailureReached(srv: Server, p: nat, from: nat, left: nat)
    requires from <= |srv.log| && forall q: nat :: p <= q < p + left ==> !srv.fails(q)
    ensures ReadThrough(srv, p, from, left).Reached?
    decreases left
  {
    if left > 0 && IsPartial(srv, p, from) {
      NoFailureReached(srv, p + 1, PageEnd(srv, p, from), left - 1);
    }
  }

  lemma SyncSucceeds(srv: Server, from: nat, decodes: GroupState -> bool, fallback: Option<Answer>)
    requires from <= |srv.log| && fallback.Some?
    requires forall q: nat :: q < MAX_PAGES ==> !srv.fails(q)
    requires forall state :: decodes(state)
    ensures Synced(srv, from, decodes, fallback).Some?
  {
    NoFailureReached(srv, 0, from, MAX_PAGES);
  }

  // ----- The revision cache

  datatype RevisionOp = StoreRevision(key: string, revision: Revision) | DeleteRevision(key: string)

  function Cached(m: map<string, Revision>, key: string): Revision {
    if key in m then m[key] else 0
  }

  function ApplyOp(m: map<string, Revision>, op: RevisionOp): map<string, Revision> {
    match op
    case StoreRevision(key, revision) => if revision > Cached(m, key) then m[key := revision] else m
    case DeleteRevision(key) => m - {key}
  }

  function RunOps(ops: seq<RevisionOp>): map<string, Revision> {
    if ops == [] then map[] else ApplyOp(RunOps(ops[..|ops| - 1]), ops[|ops| - 1])
  }

  /** The position after the last delete of `key` */
  function SinceDelete(ops: seq<RevisionOp>, key: string): (d: nat)
    ensures d <= |ops|
    ensures d > 0 ==> ops[d - 1] == DeleteRevision(key)
    ensures forall i :: d <= i < |ops| ==> ops[i] != DeleteRevision(key)
  {
    if ops == [] then 0
    else if ops[|ops| - 1] == DeleteRevision(key) then |ops|
    else SinceDelete(ops[..|ops| - 1], key)
  }

  /** Whatever order concurrent syncs store in, the cache holds the largest revision stored
      since the last delete, 0 if there is none. */
  lemma {:induction false} CacheHoldsMaximum(ops: seq<RevisionOp>, key: string)
    ensures var d, max := SinceDelete(ops, key), Cached(RunOps(ops), key);
            && (forall i, r: Revision :: d <= i < |ops| && ops[i] == StoreRevision(key, r) ==> r <= max)
            && (max == 0 || exists i :: d <= i < |ops| && ops[i] == StoreRevision(key, max))
  {
    if ops != [] {
      var n := |ops| - 1;
      var front := ops[..n];
      CacheHoldsMaximum(front, key);
      var d, before, after := SinceDelete(front, key), Cached(RunOps(front), key), Cached(RunOps(ops), key);
      if ops[n] != DeleteRevision(key) {
        forall i, r: Revision | d <= i < |ops| && ops[i] == StoreRevision(key, r) ensures r <= after {
          if i < n { assert front[i] == StoreRevision(key, r); }
        }
        if after == before && before != 0 {
          var i :| d <= i < n && front[i] == StoreRevision(key, before);
          assert ops[i] == StoreRevision(key, after);
        } else if after != 0 {
          assert ops[n] == StoreRevision(key, after);
        }
      }
    }
  }

  lemma RunOpsAppend(ops: seq<RevisionOp>, op: RevisionOp)
    ensures RunOps(ops + [op]) == ApplyOp(RunOps(ops), op)
  {
    assert (ops + [op])[..|ops|] == ops;
  }

  /** What storing endorsements leaves: under the key the new ones if there are any and storing
      them works, nothing changed otherwise. */
  ghost predicate StoresEndorsements(before: map<string, nat>, after: map<string, nat>, key: string, gse: Option<nat>,
                                     endorses: nat -> bool)
  {
    && after - {key} == before - {key}
    && if gse.Some? && endorses(gse.value) then key in after && after[key] == gse.value else after == before
  }

  lemma StoringEndorsements(m: map<string, nat>, key: string, gse: Option<nat>, endorses: nat -> bool)
    ensures StoresEndorsements(m, if gse.Some? && endorses(gse.value) then m[key := gse.value] else m, key, gse, endorses)
  {
    if gse.Some? {
      assert m[key := gse.value] - {key} == m - {key};
    }
  }

  class GroupClient {
    var groupRevision: map<string, Revision>
    var endorsements: map<string, nat>
    var expireTimers: map<string, nat>
    /** Every store and delete of a revision so far */
    ghost var history: seq<RevisionOp>

    ghost predicate Valid()
      reads this
    {
      groupRevision == RunOps(history)
    }

    constructor ()
      ensures Valid() && history == [] && endorsements == map[] && expireTimers == map[]
    {
      groupRevision, endorsements, expireTimers, history := map[], map[], map[], [];
    }

    /** The largest revision stored since the last delete, 0 if there is none */
    method CachedGroupRevision(key: string) returns (r: Revision)
      requires Valid()
      ensures forall i, s: Revision ::
        SinceDelete(history, key) <= i < |history| && history[i] == StoreRevision(key, s) ==> s <= r
      ensures r == 0 || exists i :: SinceDelete(history, key) <= i < |history| && history[i] == StoreRevision(key, r)
    {
      CacheHoldsMaximum(history, key);
      r := if key in groupRevision then groupRevision[key] else 0;
    }

    method StoreGroupRevision(key: string, revision: Revision)
      requires Valid()
      modifies this`groupRevision, this`history
      ensures Valid() && history == old(history) + [StoreRevision(key, revision)]
    {
      RunOpsAppend(history, StoreRevision(key, revision));
      history := history + [StoreRevision(key, revision)];
      var cached := if key in groupRevision then groupRevision[key] else 0;
      if revision > cached {
        groupRevision := groupRevision[key := revision];
      }
    }

    method DeleteGroupRevision(key: string)
      requires Valid()
      modifies this`groupRevision, this`history
      ensures Valid() && history == old(history) + [DeleteRevision(key)]
    {
      RunOpsAppend(history, DeleteRevision(key));
      history := history + [DeleteRevision(key)];
      groupRevision := groupRevision - {key};
    }

    /** `answer` is what the server returns and what decrypts of it, if anything. */
    method FetchGroup(key: string, answer: Option<Answer>, endorses: nat -> bool) returns (r: Option<GroupState>)
      requires Valid()
      modifies this
      ensures Valid() && r == StateOf(answer)
      ensures r.None? ==>
        history == old(history) && endorsements == old(endorsements) && expireTimers == old(expireTimers)
      ensures r.Some? ==>
        && history == old(history) + [StoreRevision(key, r.value.revision)]
        && StoresEndorsements(old(endorsements), endorsements, key, answer.value.gse, endorses)
        && expireTimers ==
             if r.value.expireTimer > 0 then old(expireTimers)[key := r.value.expireTimer] else old(expireTimers)
    {
      if answer.None? {
        return None;
      }
      hide StoresEndorsements, ApplyOp, RunOps;
      var state, gse := answer.value.state, answer.value.gse;
      StoringEndorsements(endorsements, key, gse, endorses);
      if gse.Some? && endorses(gse.value) {
        endorsements := endorsements[key := gse.value];
      }
      StoreGroupRevision(key, state.revision);
      if state.expireTimer > 0 {
        expireTimers := expireTimers[key := state.expireTimer];
      }
      return Some(state);
    }

    /** Reads pages, decrypts the snapshot and stores its revision and the last endorsements seen;
        unlike FetchGroup it leaves the expire timer alone. `decodes` is whether a snapshot can be
        decrypted, `fallback` what FetchGroup is answered. */
    method SyncGroup(srv: Server, key: string, from: Revision, cachedExpiration: int,
                     decodes: GroupState -> bool, fallback: Option<Answer>, endorses: nat -> bool)
      returns (r: Option<GroupState>)
      requires Representable(srv) && Valid()
      modifies this
      ensures Valid() && r == Synced(srv, from, decodes, fallback)
      ensures history == if r.None? then old(history) else old(history) + [StoreRevision(key, r.value.revision)]
      ensures r.None? ==> endorsements == old(endorsements) && expireTimers == old(expireTimers)
      ensures r.Some? ==>
        var end := ReadThrough(srv, 0, from, 256);
        if Snapshot(srv, from, end.next).Some? then
          && StoresEndorsements(old(endorsements), endorsements, key, LastGse(srv, end.pages), endorses)
          && expireTimers == old(expireTimers)
        else
          && StoresEndorsements(old(endorsements), endorsements, key, fallback.value.gse, endorses)
          && expireTimers ==
               if r.value.expireTimer > 0 then old(expireTimers)[key := r.value.expireTimer] else old(expireTimers)
    {
      hide StoresEndorsements, ApplyOp, RunOps, ReadThrough, LastState, Carried;
      var pages := CollectPages(srv, from, cachedExpiration);
      if pages.CollectFailed? {
        return None;
      }
      if pages.latest.None? {
        r := FetchGroup(key, fallback, endorses);
        return;
      }
      if !decodes(pages.latest.value) {
        return None;
      }
      StoringEndorsements(endorsements, key, pages.gse, endorses);
      if pages.gse.Some? && endorses(pages.gse.value) {
        endorsements := endorsements[key := pages.gse.value];
      }
      StoreGroupRevision(key, pages.latest.value.revision);
      return pages.latest;
    }
  }
}
