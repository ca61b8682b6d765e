/** `POST /crawl`: turning the submitted URL entries into crawl jobs, the
    split of the jobs into batches and concurrency groups, and the progress
    counters that are published while the crawl runs. */
module CrawlRoute {
  import opened Wrappers
  import opened Text
  import opened Sorting
  import opened Batching

  const Unknown := "unknown"
  const GitHubHost := "github.com"
  const UrlsRequired := "URLs are required"
  const NoValidUrls := "No valid URLs provided after filtering"
  /** What V8 reports for `acc[acc.length - 1].push(...)` on an empty `acc`. */
  const PushOnUndefined := "Cannot read properties of undefined (reading 'push')"

  // ---------------------------------------------------------------------
  // Names derived from a URL

  /** `url.includes("github.com")`. */
  predicate IsGitHubUrl(url: string) {
    Contains(url, GitHubHost)
  }

  /** `part.trim() !== ""`. */
  predicate NotBlank(part: string) {
    Trim(part) != ""
  }

  /** `parts.findIndex(p => p.includes("github.com"))`. */
  function GitHubIndex(parts: seq<string>): (r: int)
    ensures -1 <= r < |parts|
    ensures r >= 0 ==> Contains(parts[r], GitHubHost)
    ensures forall j :: 0 <= j < |parts| && (r == -1 || j < r) ==> !Contains(parts[j], GitHubHost)
  {
    if parts == [] then -1
    else if Contains(parts[0], GitHubHost) then 0
    else
      var t := GitHubIndex(parts[1..]);
      assert forall j :: 1 <= j < |parts| ==> parts[1..][j - 1] == parts[j];
      if t == -1 then -1 else t + 1
  }

  /** The non-blank `/`-separated pieces of a URL. */
  function Segments(url: string): seq<string> {
    Filter(Split(url, '/'), NotBlank)
  }

  /** `extractRepoName`: the segment two after the first one naming
      GitHub, or `"unknown"`. Whatever it returns other than `"unknown"` is
      a non-blank piece of the URL. */
  function ExtractRepoName(url: string): (r: string)
    ensures r == Unknown || (r in Split(url, '/') && NotBlank(r))
  {
    var parts := Segments(url);
    var g := GitHubIndex(parts);
    if g >= 0 && |parts| > g + 2 then parts[g + 2] else Unknown
  }

  /** `hostname.split(".").filter(p => p !== "www")`, then the first label
      or `"unknown"`; a URL that does not parse has no hostname. */
  function DomainName(hostname: Option<string>): (r: string)
    ensures r == Unknown || (hostname.Some? && r in Split(hostname.value, '.') && r != "www")
  {
    match hostname
    case None => Unknown
    case Some(h) =>
      var labels := Filter(Split(h, '.'), NotWww);
      if |labels| > 0 then labels[0] else Unknown
  }

  predicate NotWww(part: string) {
    part != "www"
  }

  /** Filtering a list that starts with a kept item, a dropped item and a
      kept item, followed by items that all pass. */
  lemma FilterOfUrlPieces<T>(scheme: T, empty: T, host: T, rest: seq<T>, keep: T -> bool)
    requires keep(scheme) && !keep(empty) && keep(host)
    requires Filter(rest, keep) == rest
    ensures Filter([scheme] + ([empty] + ([host] + rest)), keep) == [scheme] + ([host] + rest)
  {
    var l3 := [host] + rest;
    var l2 := [empty] + l3;
    FilterKeep(host, rest, keep);
    FilterSkip(empty, l3, keep);
    FilterKeep(scheme, l2, keep);
  }

  lemma ConsForm<T>(a: T, b: T, c: T, rest: seq<T>)
    ensures [a, b, c] + rest == [a] + ([b] + ([c] + rest))
    ensures [a, c] + rest == [a] + ([c] + rest)
  {
  }

  lemma EmptyIsBlank()
    ensures !NotBlank("")
  {
    assert Trim("") == "";
  }

  /** The first two non-blank pieces of `scheme//host/...`. */
  lemma SegmentsOfUrl(url: string, scheme: string, host: string, rest: seq<string>)
    requires Split(url, '/') == [scheme, "", host] + rest
    requires NotBlank(scheme) && NotBlank(host) && Filter(rest, NotBlank) == rest
    ensures Segments(url) == [scheme, host] + rest
  {
    EmptyIsBlank();
    ConsForm(scheme, "", host, rest);
    FilterOfUrlPieces(scheme, "", host, rest, NotBlank);
  }

  lemma GitHubSecond(scheme: string, host: string, rest: seq<string>)
    requires !Contains(scheme, GitHubHost) && Contains(host, GitHubHost)
    ensures GitHubIndex([scheme, host] + rest) == 1
  {
    var parts := [scheme, host] + rest;
    assert parts[0] == scheme;
    assert parts[1..][0] == host;
  }

  /** For a URL whose `/`-pieces are `scheme`, the empty piece of `//`,
      `host`, then `owner`, `repo`, ... with GitHub in the host and not in
      the scheme, the repository name is `repo`, and a URL that stops at
      the owner names none. */
  lemma RepoNameOfGitHubUrl(url: string, scheme: string, host: string, path: seq<string>)
    requires Split(url, '/') == [scheme, "", host] + path
    requires NotBlank(scheme) && NotBlank(host)
    requires forall k :: 0 <= k < |path| ==> NotBlank(path[k])
    requires !Contains(scheme, GitHubHost) && Contains(host, GitHubHost)
    ensures ExtractRepoName(url) == if |path| >= 2 then path[1] else Unknown
  {
    FilterAllOrNone(path, NotBlank);
    SegmentsOfUrl(url, scheme, host, path);
    GitHubSecond(scheme, host, path);
    if |path| >= 2 {
      assert ([scheme, host] + path)[3] == path[1];
    }
  }

  /** The domain name is the first label once every `www` label is gone. */
  lemma DomainNameSkipsWww(hostname: string, www: seq<string>, name: string, rest: seq<string>)
    requires Split(hostname, '.') == www + [name] + rest
    requires forall k :: 0 <= k < |www| ==> www[k] == "www"
    requires name != "www"
    ensures DomainName(Some(hostname)) == name
  {
    FilterAppend(www + [name], rest, NotWww);
    FilterAppend(www, [name], NotWww);
    FilterAllOrNone(www, NotWww);
  }

  /** A host made of `www` labels only names nothing. */
  lemma DomainNameOfWwwOnly(hostname: string)
    requires forall k :: 0 <= k < |Split(hostname, '.')| ==> Split(hostname, '.')[k] == "www"
    ensures DomainName(Some(hostname)) == Unknown
  {
    FilterAllOrNone(Split(hostname, '.'), NotWww);
  }

  /** An empty hostname (as a `file:` URL has) gives the empty name, which
      is not `"unknown"`. */
  lemma DomainNameOfEmptyHost()
    ensures DomainName(Some("")) == ""
  {
    assert Split("", '.') == [""];
    assert Filter([""], NotWww) == [""];
  }

  // ---------------------------------------------------------------------
  // The URL entries

  /** One element of `urls` in the request body; `None` is a missing or
      `null` field. */
  datatype RawEntry = RawEntry(url: Option<string>, kind: Option<string>)

  /** `{ url, organization_id: type, type }`. */
  datatype UrlEntry = UrlEntry(url: string, organizationId: string, kind: string)

  /** `entry.url?.trim().replace(/\/$/, "") || ""`. */
  function NormalizeUrl(url: Option<string>): (r: string)
  {
    match url
    case None => ""
    case Some(u) =>
      var t := Trim(u);
      if t != [] && t[|t| - 1] == '/' then t[..|t| - 1] else t
  }

  /** The URL is the trimmed input with one trailing `/` taken off when it
      ends with one; a missing URL is the empty string. */
  lemma NormalizeUrlSpec(url: Option<string>)
    ensures url.None? ==> NormalizeUrl(url) == ""
    ensures url.Some? ==>
              var t := Trim(url.value);
              (t != [] && t[|t| - 1] == '/' ==> NormalizeUrl(url) + "/" == t)
              && (t == [] || t[|t| - 1] != '/' ==> NormalizeUrl(url) == t)
  {
    if url.Some? {
      var t := Trim(url.value);
      if t != [] && t[|t| - 1] == '/' {
        assert t == t[..|t| - 1] + "/";
      }
    }
  }

  /** The type given for an entry, or the one derived from its URL;
      `hostname` is what `new URL(url).hostname` gives, `None` when the
      URL does not parse. */
  function EntryKind(entry: RawEntry, hostname: string -> Option<string>): string {
    var url := NormalizeUrl(entry.url);
    if entry.kind.Some? && entry.kind.value != "" then entry.kind.value
    else if IsGitHubUrl(url) then ExtractRepoName(url)
    else DomainName(hostname(url))
  }

  /** The `map` callback: an entry is dropped (`null`) only when it has no
      type and the derived one is `"unknown"`; the kept entry carries its
      type as both the organisation and the type. */
  function MapEntry(entry: RawEntry, hostname: string -> Option<string>): (r: Option<UrlEntry>)
    ensures r.None? <==> (entry.kind.None? || entry.kind.value == "") && EntryKind(entry, hostname) == Unknown
    ensures r.Some? ==> r.value == UrlEntry(NormalizeUrl(entry.url), EntryKind(entry, hostname), EntryKind(entry, hostname))
    ensures entry.kind.Some? && entry.kind.value != "" ==> r == Some(UrlEntry(NormalizeUrl(entry.url), entry.kind.value, entry.kind.value))
  {
    var kind := EntryKind(entry, hostname);
    if (entry.kind.None? || entry.kind.value == "") && kind == Unknown then None
    else Some(UrlEntry(NormalizeUrl(entry.url), kind, kind))
  }

  /** `.map(...).filter(Boolean)`: the kept entries in order. */
  function MapEntries(raw: seq<RawEntry>, hostname: string -> Option<string>): (r: seq<UrlEntry>)
    ensures |r| <= |raw|
  {
    if raw == [] then []
    else
      var front := MapEntries(raw[..|raw| - 1], hostname);
      match MapEntry(raw[|raw| - 1], hostname)
      case None => front
      case Some(e) => front + [e]
  }

  /** The checks before the crawl starts: a falsy `urls` is refused, and
      so is a list from which every entry was dropped (both answered with
      status 400). */
  function PrepareEntries(urls: Option<seq<RawEntry>>, hostname: string -> Option<string>): (r: Result<seq<UrlEntry>>)
    ensures urls.None? ==> r == Failure(UrlsRequired)
    ensures urls.Some? ==> r == (if MapEntries(urls.value, hostname) == [] then Failure(NoValidUrls) else Success(MapEntries(urls.value, hostname)))
  {
    match urls
    case None => Failure(UrlsRequired)
    case Some(raw) =>
      var entries := MapEntries(raw, hostname);
      if entries == [] then Failure(NoValidUrls) else Success(entries)
  }

  /** Every kept entry comes from an input entry, with its type as its
      organisation. */
  lemma {:induction false} MapEntriesFrom(raw: seq<RawEntry>, hostname: string -> Option<string>)
    ensures forall e :: e in MapEntries(raw, hostname) ==>
              e.organizationId == e.kind && exists j :: 0 <= j < |raw| && MapEntry(raw[j], hostname) == Some(e)
    decreases |raw|
  {
    if raw != [] {
      var front := raw[..|raw| - 1];
      MapEntriesFrom(front, hostname);
      forall e | e in MapEntries(raw, hostname)
        ensures e.organizationId == e.kind && exists j :: 0 <= j < |raw| && MapEntry(raw[j], hostname) == Some(e)
      {
        if e in MapEntries(front, hostname) {
          var j :| 0 <= j < |front| && MapEntry(front[j], hostname) == Some(e);
          assert raw[j] == front[j];
        } else {
          assert MapEntry(raw[|raw| - 1], hostname) == Some(e);
        }
      }
    }
  }

  /** An entry with a type is always kept, with that type. */
  lemma {:induction false} MapEntriesKeepTyped(raw: seq<RawEntry>, hostname: string -> Option<string>, j: nat)
    requires j < |raw| && raw[j].kind.Some? && raw[j].kind.value != ""
    ensures UrlEntry(NormalizeUrl(raw[j].url), raw[j].kind.value, raw[j].kind.value) in MapEntries(raw, hostname)
    decreases |raw|
  {
    var front := raw[..|raw| - 1];
    if j < |front| {
      assert raw[j] == front[j];
      MapEntriesKeepTyped(front, hostname, j);
    }
  }

  /** A request whose entries all carry a type starts a crawl of all of
      them; one whose every entry lacks a type and names nothing is
      refused. */
  lemma {:induction false} PrepareEntriesBounds(raw: seq<RawEntry>, hostname: string -> Option<string>)
    ensures (forall j :: 0 <= j < |raw| ==> raw[j].kind.Some? && raw[j].kind.value != "") ==> |MapEntries(raw, hostname)| == |raw|
    ensures (forall j :: 0 <= j < |raw| ==> MapEntry(raw[j], hostname).None?) ==>
              PrepareEntries(Some(raw), hostname) == Failure(NoValidUrls)
    decreases |raw|
  {
    if raw != [] {
      var front := raw[..|raw| - 1];
      PrepareEntriesBounds(front, hostname);
      assert forall j :: 0 <= j < |front| ==> front[j] == raw[j];
    }
  }

  // ---------------------------------------------------------------------
  // Batches and concurrency groups

  /** `for (let i = 0; i < n; i += batchSize) batches.push(xs.slice(i, i + batchSize))`.
      A `batchSize` that is not positive never ends the loop. */
  method SplitBatches<T>(items: seq<T>, batchSize: nat) returns (batches: seq<seq<T>>)
    requires batchSize > 0
    ensures batches == Chunks(items, batchSize)
  {
    batches := [];
    var i := 0;
    while i < |items|
      invariant batches + Chunks(Remaining(items, i), batchSize) == Chunks(items, batchSize)
      decreases |items| - i
    {
      var end := if i + batchSize <= |items| then i + batchSize else |items|;
      SplitStep(items, i, batchSize, batches);
      batches := batches + [items[i..end]];
      i := i + batchSize;
    }
    assert batches + [] == batches;
  }

  /** What is left to split once the loop index is `i`. */
  ghost function Remaining<T>(items: seq<T>, i: nat): seq<T> {
    if i < |items| then items[i..] else []
  }

  lemma SplitStep<T>(items: seq<T>, i: nat, batchSize: nat, batches: seq<seq<T>>)
    requires batchSize > 0 && i < |items|
    requires batches + Chunks(Remaining(items, i), batchSize) == Chunks(items, batchSize)
    ensures var end := if i + batchSize <= |items| then i + batchSize else |items|;
            (batches + [items[i..end]]) + Chunks(Remaining(items, i + batchSize), batchSize) == Chunks(items, batchSize)
  {
    var end := if i + batchSize <= |items| then i + batchSize else |items|;
    ChunksStep(items, i, batchSize);
    if i + batchSize >= |items| {
      assert items[end..] == [];
    }
    assert Remaining(items, i + batchSize) == items[end..];
    var c := [items[i..end]];
    var rest := Chunks(Remaining(items, i + batchSize), batchSize);
    assert (batches + c) + rest == batches + (c + rest);
  }

  /** `| c |`, the group size JavaScript's `%` gives for a non-zero
      divisor of either sign. */
  function Magnitude(c: int): (r: nat)
    requires c != 0
    ensures r > 0
  {
    if c < 0 then -c else c
  }

  /** The `reduce` over a batch: a new group at every index divisible by
      `concurrency`, each item in the last group. With `concurrency` 0 no
      index is divisible (`index % 0` is `NaN`), so the first item meets an
      empty list and throws. */
  method GroupByConcurrency<T>(items: seq<T>, concurrency: int) returns (groups: Option<seq<seq<T>>>)
    ensures concurrency != 0 ==> groups == Some(Chunks(items, Magnitude(concurrency)))
    ensures concurrency == 0 ==> groups == (if items == [] then Some([]) else None)
  {
    var acc: seq<seq<T>> := [];
    for index := 0 to |items|
      invariant concurrency != 0 ==> acc == Chunks(items[..index], Magnitude(concurrency))
      invariant concurrency == 0 ==> acc == [] && index == 0
    {
      ghost var before := acc;
      if concurrency != 0 && index % concurrency == 0 {
        acc := acc + [[]];
      }
      if acc == [] {
        return None;
      }
      ghost var m := Magnitude(concurrency);
      assert index % concurrency == index % m;
      ChunksAppend(items[..index], items[index], m);
      assert items[..index + 1] == items[..index] + [items[index]];
      if index % m == 0 {
        assert acc == before + [[]];
        assert acc[..|acc| - 1] == before && acc[|acc| - 1] + [items[index]] == [items[index]];
      }
      acc := acc[..|acc| - 1] + [acc[|acc| - 1] + [items[index]]];
      if index % m == 0 {
        assert acc == before + [[items[index]]];
      } else {
        assert acc == before[..|before| - 1] + [before[|before| - 1] + [items[index]]];
      }
    }
    assert items[..|items|] == items;
    return Some(acc);
  }

  // ---------------------------------------------------------------------
  // Progress counters

  /** How a `crawl_website` call ends: with a list of pages, with a
      falsy result, or by throwing. */
  datatype CrawlOutcome = Pages(count: nat) | NoResult | Throws(message: string)

  /** An entry together with the outcome its crawl will have. */
  datatype Attempt = Attempt(entry: UrlEntry, outcome: CrawlOutcome)

  /** The statuses that are published and stored under `crawl:<id>`. */
  datatype Status =
    | Started(total: nat)
    | Progress(total: nat, processed: nat, succeeded: nat, failed: nat, currentUrl: string, error: Option<string>)
    | Completed(total: nat, processed: nat, succeeded: nat, failed: nat)
    | Failed(total: nat, reason: string)

  function Successes(attempts: seq<Attempt>): (r: nat)
    ensures r <= |attempts|
  {
    if attempts == [] then 0
    else Successes(attempts[..|attempts| - 1]) + (if attempts[|attempts| - 1].outcome.Pages? then 1 else 0)
  }

  /** The update a settled crawl publishes after those in `before`. */
  function SettleUpdate(total: nat, before: seq<Attempt>, a: Attempt): Status {
    var done := before + [a];
    Progress(total, |done|, Successes(done), |done| - Successes(done), a.entry.url,
             if a.outcome.Throws? then Some(a.outcome.message) else None)
  }

  /** The progress updates of the attempts settled in order. */
  function Updates(total: nat, attempts: seq<Attempt>): (r: seq<Status>)
    ensures |r| == |attempts|
  {
    if attempts == [] then []
    else
      var front := attempts[..|attempts| - 1];
      Updates(total, front) + [SettleUpdate(total, front, attempts[|attempts| - 1])]
  }

  /** With `concurrency` 0 the grouping of the first batch throws. */
  predicate GroupingThrows(attempts: seq<Attempt>, concurrency: int) {
    concurrency == 0 && attempts != []
  }

  /** The status stored under `crawl:<id>:status` at the end, and
      published last when the crawl completes. */
  function FinalStatus(attempts: seq<Attempt>, concurrency: int): Status {
    var total := |attempts|;
    if GroupingThrows(attempts, concurrency) then Failed(total, PushOnUndefined)
    else Completed(total, total, Successes(attempts), total - Successes(attempts))
  }

  /** What the crawl publishes: when the grouping throws, the failure, and
      then the reports of the first batch's crawls, already started;
      otherwise every crawl's report and then the completion. */
  function CrawlTrace(attempts: seq<Attempt>, batchSize: nat, concurrency: int): (r: seq<Status>)
    requires batchSize > 0
  {
    var total := |attempts|;
    if GroupingThrows(attempts, concurrency) then
      [FinalStatus(attempts, concurrency)] + Updates(total, Chunks(attempts, batchSize)[0])
    else
      Updates(total, attempts) + [FinalStatus(attempts, concurrency)]
  }

  /** The counters of one crawl and what it has published. */
  class CrawlJob {
    const total: nat
    var processed: nat
    var succeeded: nat
    var failed: nat
    var published: seq<Status>
    var stored: Status

    /** Every settled crawl was counted once, as a success or a failure. */
    ghost predicate Valid()
      reads this
    {
      processed == succeeded + failed
    }

    constructor (total: nat)
      ensures Valid() && this.total == total
      ensures processed == 0 && succeeded == 0 && failed == 0
      ensures published == [] && stored == Started(total)
    {
      this.total := total;
      processed, succeeded, failed := 0, 0, 0;
      published := [];
      stored := Started(total);
    }

    /** The `.then`/`.catch` of one crawl: count it, and publish the
        counters with its URL (and the error, when it threw). */
    method Settle(a: Attempt)
      requires Valid()
      modifies this
      ensures Valid()
      ensures processed == old(processed) + 1
      ensures succeeded == old(succeeded) + (if a.outcome.Pages? then 1 else 0)
      ensures failed == old(failed) + (if a.outcome.Pages? then 0 else 1)
      ensures published == old(published) + [Progress(total, processed, succeeded, failed, a.entry.url,
                                                      if a.outcome.Throws? then Some(a.outcome.message) else None)]
      ensures stored == old(stored)
    {
      processed := processed + 1;
      match a.outcome
      case Pages(_) =>
        succeeded := succeeded + 1;
        published := published + [Progress(total, processed, succeeded, failed, a.entry.url, None)];
      case NoResult =>
        failed := failed + 1;
        published := published + [Progress(total, processed, succeeded, failed, a.entry.url, None)];
      case Throws(message) =>
        failed := failed + 1;
        published := published + [Progress(total, processed, succeeded, failed, a.entry.url, Some(message))];
    }

    /** Publish and store the completion with the final counters. */
    method Complete()
      requires Valid()
      modifies this
      ensures Valid() && processed == old(processed) && succeeded == old(succeeded) && failed == old(failed)
      ensures published == old(published) + [Completed(total, processed, succeeded, failed)]
      ensures stored == Completed(total, processed, succeeded, failed)
    {
      published := published + [Completed(total, processed, succeeded, failed)];
      stored := Completed(total, processed, succeeded, failed);
    }

    /** Publish and store the failure. */
    method Fail(message: string)
      requires Valid()
      modifies this
      ensures Valid() && processed == old(processed) && succeeded == old(succeeded) && failed == old(failed)
      ensures published == old(published) + [Failed(total, message)]
      ensures stored == Failed(total, message)
    {
      published := published + [Failed(total, message)];
      stored := Failed(total, message);
    }

    /** Settle the attempts of one batch, in order. */
    method SettleAll(ghost done: seq<Attempt>, batch: seq<Attempt>)
      requires Valid() && processed == |done| && succeeded == Successes(done)
      modifies this
      ensures Valid() && processed == |done + batch| && succeeded == Successes(done + batch)
      ensures published == old(published) + Updates(total, done + batch)[|done|..]
      ensures stored == old(stored)
    {
      ghost var before := done;
      assert done + batch[..0] == done;
      for i := 0 to |batch|
        invariant before == done + batch[..i]
        invariant Valid() && processed == |before| && succeeded == Successes(before)
        invariant published == old(published) + Updates(total, before)[|done|..]
        invariant stored == old(stored)
      {
        SettleStep(total, done, before, batch[i]);
        PrefixStep(done, batch, i);
        Settle(batch[i]);
        before := before + [batch[i]];
      }
      assert batch[..|batch|] == batch;
    }

    /** One batch of a run whose updates so far are those of `done`. */
    method RunBatch(ghost done: seq<Attempt>, batch: seq<Attempt>)
      requires Valid() && processed == |done| && succeeded == Successes(done)
      requires published == Updates(total, done)
      modifies this
      ensures Valid() && processed == |done + batch| && succeeded == Successes(done + batch)
      ensures published == Updates(total, done + batch)
      ensures stored == old(stored)
    {
      SettleAll(done, batch);
      UpdatesSplit(total, done, batch);
    }

    /** The loop over the batches: group each one, then settle its
        crawls; a grouping that throws ends the loop. */
    method RunBatches(batches: seq<seq<Attempt>>, concurrency: int) returns (threw: bool)
      requires Valid() && processed == 0 && succeeded == 0 && published == [] && stored == Started(total)
      requires forall k :: 0 <= k < |batches| ==> batches[k] != []
      modifies this
      ensures threw <==> concurrency == 0 && batches != []
      ensures threw ==> published == [Failed(total, PushOnUndefined)] + Updates(total, batches[0])
                        && stored == Failed(total, PushOnUndefined)
                        && Valid() && processed == |batches[0]| && succeeded == Successes(batches[0])
      ensures !threw ==> Valid() && processed == |Concat(batches)| && succeeded == Successes(Concat(batches))
                         && published == Updates(total, Concat(batches)) && stored == Started(total)
    {
      ghost var done: seq<Attempt> := [];
      var b := 0;
      while b < |batches|
        invariant b <= |batches| && done == Concat(batches[..b])
        invariant Valid() && processed == |done| && succeeded == Successes(done)
        invariant published == Updates(total, done) && stored == Started(total)
        invariant concurrency == 0 ==> b == 0
      {
        var groups := GroupByConcurrency(batches[b], concurrency);
        if groups.None? {
          Abort(batches[0]);
          return true;
        }
        RunBatch(done, batches[b]);
        ConcatStep(batches, b);
        done := done + batches[b];
        b := b + 1;
      }
      assert batches[..b] == batches;
      return false;
    }

    /** The grouping of the first batch threw: the failure is published
        and stored, then the first batch's crawls, already started,
        report. */
    method Abort(first: seq<Attempt>)
      requires Valid() && processed == 0 && succeeded == 0 && published == []
      modifies this
      ensures published == [Failed(total, PushOnUndefined)] + Updates(total, first)
      ensures stored == Failed(total, PushOnUndefined)
      ensures Valid() && processed == |first| && succeeded == Successes(first)
    {
      Fail(PushOnUndefined);
      SettleAll([], first);
      assert [] + first == first;
      FailedTrace(total, first);
    }
  }

  lemma PrefixStep<T>(xs: seq<T>, ys: seq<T>, i: nat)
    requires i < |ys|
    ensures xs + ys[..i + 1] == (xs + ys[..i]) + [ys[i]]
  {
    assert ys[..i + 1] == ys[..i] + [ys[i]];
  }

  /** Settling one more attempt adds its update after those since `done`. */
  lemma SettleStep(total: nat, done: seq<Attempt>, before: seq<Attempt>, a: Attempt)
    requires |done| <= |before|
    ensures var after := before + [a];
            Updates(total, after)[|done|..] == Updates(total, before)[|done|..] + [SettleUpdate(total, before, a)]
            && Successes(after) == Successes(before) + (if a.outcome.Pages? then 1 else 0)
  {
    var after := before + [a];
    assert after[..|after| - 1] == before;
  }

  /** The updates of a longer run extend those of a shorter one. */
  lemma {:induction false} UpdatesSplit(total: nat, xs: seq<Attempt>, ys: seq<Attempt>)
    ensures Updates(total, xs + ys) == Updates(total, xs) + Updates(total, xs + ys)[|xs|..]
    decreases |ys|
  {
    if ys == [] {
      assert xs + ys == xs;
    } else {
      var front := ys[..|ys| - 1];
      assert (xs + ys)[..|xs + ys| - 1] == xs + front;
      UpdatesSplit(total, xs, front);
    }
  }

  lemma UpdatesPrefix(total: nat, xs: seq<Attempt>, m: nat)
    requires 0 < |xs| && m < |xs|
    ensures Updates(total, xs)[m..] == Updates(total, xs[..|xs| - 1])[m..] + [SettleUpdate(total, xs[..|xs| - 1], xs[|xs| - 1])]
  {
  }

  /** The background task: split into batches, group each batch, settle
      its crawls, and publish the completion; a grouping that throws ends
      the task with the failure. */
  method Crawl(attempts: seq<Attempt>, batchSize: nat, concurrency: int) returns (published: seq<Status>, stored: Status)
    requires batchSize > 0
    ensures published == CrawlTrace(attempts, batchSize, concurrency)
    ensures stored == FinalStatus(attempts, concurrency)
  {
    var total := |attempts|;
    var job := new CrawlJob(total);
    var batches := SplitBatches(attempts, batchSize);
    ChunksConcat(attempts, batchSize);
    ChunksSizes(attempts, batchSize);
    var threw := job.RunBatches(batches, concurrency);
    if !threw {
      job.Complete();
    }
    published, stored := job.published, job.stored;
  }

  lemma FailedTrace(total: nat, first: seq<Attempt>)
    ensures var none: seq<Attempt> := [];
            [] + [Failed(total, PushOnUndefined)] + Updates(total, none + first)[|none|..]
            == [Failed(total, PushOnUndefined)] + Updates(total, first)
  {
    var none: seq<Attempt> := [];
    assert none + first == first;
  }

  lemma ConcatStep<T>(xss: seq<seq<T>>, b: nat)
    requires b < |xss|
    ensures Concat(xss[..b + 1]) == Concat(xss[..b]) + xss[b]
  {
    assert xss[..b + 1] == xss[..b] + [xss[b]];
    ConcatAppend(xss[..b], [xss[b]]);
    assert Concat([xss[b]]) == xss[b] + Concat([]);
  }

  // ---------------------------------------------------------------------
  // What the published counters promise

  /** The `k`-th progress update is about the `k`-th attempt and counts
      the `k + 1` attempts settled so far. */
  lemma {:induction false} UpdatesAt(total: nat, attempts: seq<Attempt>, k: nat)
    requires k < |attempts|
    ensures Updates(total, attempts)[k] == SettleUpdate(total, attempts[..k], attempts[k])
    decreases |attempts|
  {
    var front := attempts[..|attempts| - 1];
    if k < |front| {
      UpdatesAt(total, front, k);
      assert front[..k] == attempts[..k];
    }
  }

  /** Every progress update has processed = succeeded + failed, counts one
      more crawl than the one before, names the URL of the crawl that
      settled and carries its error exactly when it threw. */
  lemma ProgressCounts(total: nat, attempts: seq<Attempt>, k: nat)
    requires k < |attempts|
    ensures var u := Updates(total, attempts)[k];
            u.Progress? && u.processed == k + 1 && u.processed == u.succeeded + u.failed
            && u.currentUrl == attempts[k].entry.url
            && (u.error.Some? <==> attempts[k].outcome.Throws?)
            && (k > 0 ==> var p := Updates(total, attempts)[k - 1];
                          p.Progress? && u.succeeded == p.succeeded + (if attempts[k].outcome.Pages? then 1 else 0))
  {
    UpdatesAt(total, attempts, k);
    assert attempts[..k + 1] == attempts[..k] + [attempts[k]];
    if k > 0 {
      UpdatesAt(total, attempts, k - 1);
      assert attempts[..k - 1] + [attempts[k - 1]] == attempts[..k];
    }
  }

  /** A crawl with a non-zero concurrency ends with the completion, where
      every URL has been processed, as a success or a failure, and the
      successes are the crawls that returned pages. */
  lemma CompletionCounts(attempts: seq<Attempt>, batchSize: nat, concurrency: int)
    requires batchSize > 0 && (concurrency != 0 || attempts == [])
    ensures var t := CrawlTrace(attempts, batchSize, concurrency);
            |t| == |attempts| + 1
            && t[|attempts|] == FinalStatus(attempts, concurrency)
            && t[|attempts|].Completed?
            && t[|attempts|].processed == |attempts| == t[|attempts|].total
            && t[|attempts|].processed == t[|attempts|].succeeded + t[|attempts|].failed
            && t[|attempts|].succeeded == Successes(attempts)
  {
  }

  /** With `concurrency` 0 the failure is published first and the crawls
      of the first batch still report after it, as in-progress updates. */
  lemma ZeroConcurrencyFails(attempts: seq<Attempt>, batchSize: nat)
    requires batchSize > 0 && attempts != []
    ensures var t := CrawlTrace(attempts, batchSize, 0);
            var first := if |attempts| <= batchSize then |attempts| else batchSize;
            |t| == 1 + first
            && t[0] == Failed(|attempts|, PushOnUndefined)
            && FinalStatus(attempts, 0) == t[0]
            && forall k :: 1 <= k < |t| ==> t[k].Progress?
  {
    var first := Chunks(attempts, batchSize)[0];
    assert |first| == if |attempts| <= batchSize then |attempts| else batchSize;
    var t := CrawlTrace(attempts, batchSize, 0);
    forall k | 1 <= k < |t| ensures t[k].Progress? {
      UpdatesAt(|attempts|, first, k - 1);
    }
  }

  /** Successes count the crawls that returned pages, in any split of the
      list. */
  lemma {:induction false} SuccessesAppend(xs: seq<Attempt>, ys: seq<Attempt>)
    ensures Successes(xs + ys) == Successes(xs) + Successes(ys)
    decreases |ys|
  {
    if ys == [] {
      assert xs + ys == xs;
    } else {
      assert (xs + ys)[..|xs + ys| - 1] == xs + ys[..|ys| - 1];
      SuccessesAppend(xs, ys[..|ys| - 1]);
    }
  }
}
