/** `getMergeRequests`: fetch the merged and the closed merge requests, the
    project's branches and the merge and close events, then keep the requests
    whose source branch still exists and is not excluded, and join each one to
    its source branch, its target branch and the event that closed it. */
module Reconcile {
  import opened Wrappers
  import opened Collections
  import opened Pagination

  datatype Branch = Branch(name: string)

  datatype MergeRequest = MergeRequest(
    iid: int, sourceBranch: string, targetBranch: string, state: string, webURL: string)

  /** A contribution event on a merge request; `targetIID` is the request's IID. */
  datatype Event = Event(targetIID: int, authorUsername: string)

  /** One row of the result. The source branch is always there (requests whose
      source branch is gone are dropped); the target branch and the event are
      Go pointers that may be nil, here None. */
  datatype Entry = Entry(
    sourceBranch: Branch, targetBranch: Option<Branch>, event: Option<Event>,
    mergeRequest: MergeRequest)

  /** The five listings the task reads, each a paginated endpoint. */
  datatype Sources = Sources(
    mergedMRs: Fetch<MergeRequest>, closedMRs: Fetch<MergeRequest>,
    branches: Fetch<Branch>, mergeEvents: Fetch<Event>, closeEvents: Fetch<Event>)

  // The keys of the three Go maps.
  function NameOf(b: Branch): string { b.name }
  function TargetOf(e: Event): int { e.targetIID }
  function Itself(s: string): string { s }

  /** The test of the filter loop: the source branch exists and is not excluded. */
  function Keeps(branches: map<string, Branch>, excluded: map<string, string>): MergeRequest -> bool
  {
    (mr: MergeRequest) => mr.sourceBranch in branches && mr.sourceBranch !in excluded
  }

  /** One result row, looked up in the branch and event maps. */
  function Join(mr: MergeRequest, branches: map<string, Branch>, events: map<int, Event>): Entry
    requires mr.sourceBranch in branches
  {
    Entry(branches[mr.sourceBranch], Lookup(branches, mr.targetBranch), Lookup(events, mr.iid), mr)
  }

  function JoinAll(mrs: seq<MergeRequest>, branches: map<string, Branch>, events: map<int, Event>): (r: seq<Entry>)
    requires forall i :: 0 <= i < |mrs| ==> mrs[i].sourceBranch in branches
    ensures |r| == |mrs|
  {
    if mrs == [] then []
    else JoinAll(mrs[..|mrs| - 1], branches, events) + [Join(mrs[|mrs| - 1], branches, events)]
  }

  /** The entries `getMergeRequests` returns for the fetched lists. */
  function Reconciled(mrs: seq<MergeRequest>, bs: seq<Branch>, es: seq<Event>, exclude: seq<string>): seq<Entry>
  {
    var branches := IndexBy(bs, NameOf);
    var kept := Filter(mrs, Keeps(branches, IndexBy(exclude, Itself)));
    FilterSatisfies(mrs, Keeps(branches, IndexBy(exclude, Itself)));
    JoinAll(kept, branches, IndexBy(es, TargetOf))
  }

  /** The correlation half of `getMergeRequests`: the exclusion map, the branch
      map, the filter, the event map and the join, each a loop. */
  method Correlate(mrs: seq<MergeRequest>, bs: seq<Branch>, es: seq<Event>, exclude: seq<string>)
    returns (results: seq<Entry>)
    ensures results == Reconciled(mrs, bs, es, exclude)
  {
    var excluded: map<string, string> := map[];
    for i := 0 to |exclude|
      invariant excluded == IndexBy(exclude[..i], Itself)
    {
      assert exclude[..i + 1][..i] == exclude[..i];
      excluded := excluded[exclude[i] := exclude[i]];
    }
    assert exclude[..|exclude|] == exclude;

    var branches: map<string, Branch> := map[];
    for i := 0 to |bs|
      invariant branches == IndexBy(bs[..i], NameOf)
    {
      assert bs[..i + 1][..i] == bs[..i];
      branches := branches[bs[i].name := bs[i]];
    }
    assert bs[..|bs|] == bs;

    var filtered: seq<MergeRequest> := [];
    for i := 0 to |mrs|
      invariant filtered == Filter(mrs[..i], Keeps(branches, excluded))
    {
      assert mrs[..i + 1][..i] == mrs[..i];
      if mrs[i].sourceBranch in branches {
        if mrs[i].sourceBranch !in excluded {
          filtered := filtered + [mrs[i]];
        }
      }
    }
    assert mrs[..|mrs|] == mrs;
    FilterSatisfies(mrs, Keeps(branches, excluded));

    var events: map<int, Event> := map[];
    for i := 0 to |es|
      invariant events == IndexBy(es[..i], TargetOf)
    {
      assert es[..i + 1][..i] == es[..i];
      events := events[es[i].targetIID := es[i]];
    }
    assert es[..|es|] == es;

    results := [];
    for i := 0 to |filtered|
      invariant results == JoinAll(filtered[..i], branches, events)
    {
      assert filtered[..i + 1][..i] == filtered[..i];
      results := results + [Entry(branches[filtered[i].sourceBranch],
                                  Lookup(branches, filtered[i].targetBranch),
                                  Lookup(events, filtered[i].iid),
                                  filtered[i])];
    }
    assert filtered[..|filtered|] == filtered;
  }

  /** What `getMergeRequests` returns: the five fetches in source order
      (merged requests, closed requests, branches, merge events, close
      events), the first failure failing the whole call with no entries;
      otherwise merged requests followed by closed ones and merge events
      followed by close events, correlated. */
  function Reconciliation(src: Sources, exclude: seq<string>): Result<seq<Entry>, PageError>
  {
    var merged :- Drain(src.mergedMRs, 1, 1).result;
    var closed :- Drain(src.closedMRs, 1, 1).result;
    var bs :- Drain(src.branches, 1, 1).result;
    var mergeEs :- Drain(src.mergeEvents, 1, 1).result;
    var closeEs :- Drain(src.closeEvents, 1, 1).result;
    Ok(Reconciled(merged + closed, bs, mergeEs + closeEs, exclude))
  }

  /** `getMergeRequests`, fetching through the paginator and correlating the
      lists it gets. */
  method GetMergeRequests(src: Sources, exclude: seq<string>) returns (r: Result<seq<Entry>, PageError>)
    ensures r == Reconciliation(src, exclude)
    ensures r.Err? ==>
              exists k :: 1 <= k &&
                (PageFailure(src.mergedMRs, k) == Some(r.error) || PageFailure(src.closedMRs, k) == Some(r.error) ||
                 PageFailure(src.branches, k) == Some(r.error) || PageFailure(src.mergeEvents, k) == Some(r.error) ||
                 PageFailure(src.closeEvents, k) == Some(r.error))
  {
    var merged, _ := GetAllPages(src.mergedMRs);
    if merged.Err? { DrainOutcome(src.mergedMRs, 1, 1); return Err(merged.error); }
    var closed, _ := GetAllPages(src.closedMRs);
    if closed.Err? { DrainOutcome(src.closedMRs, 1, 1); return Err(closed.error); }
    var mrs := merged.value + closed.value;
    var bs, _ := GetAllPages(src.branches);
    if bs.Err? { DrainOutcome(src.branches, 1, 1); return Err(bs.error); }
    var mergeEs, _ := GetAllPages(src.mergeEvents);
    if mergeEs.Err? { DrainOutcome(src.mergeEvents, 1, 1); return Err(mergeEs.error); }
    var closeEs, _ := GetAllPages(src.closeEvents);
    if closeEs.Err? { DrainOutcome(src.closeEvents, 1, 1); return Err(closeEs.error); }
    var es := mergeEs.value + closeEs.value;
    var entries := Correlate(mrs, bs.value, es, exclude);
    return Ok(entries);
  }

  /** The merge requests behind a list of entries. */
  function RequestsOf(entries: seq<Entry>): (r: seq<MergeRequest>)
    ensures |r| == |entries|
    ensures forall i :: 0 <= i < |r| ==> r[i] == entries[i].mergeRequest
  {
    seq(|entries|, i requires 0 <= i < |entries| => entries[i].mergeRequest)
  }

  lemma {:induction false} JoinAllRequests(mrs: seq<MergeRequest>, branches: map<string, Branch>, events: map<int, Event>)
    requires forall i :: 0 <= i < |mrs| ==> mrs[i].sourceBranch in branches
    ensures RequestsOf(JoinAll(mrs, branches, events)) == mrs
    ensures forall i :: 0 <= i < |mrs| ==> JoinAll(mrs, branches, events)[i] == Join(mrs[i], branches, events)
  {
    if mrs != [] {
      JoinAllRequests(mrs[..|mrs| - 1], branches, events);
    }
  }

  /** A branch of that name is among the fetched branches. */
  ghost predicate Fetched(bs: seq<Branch>, name: string)
  {
    exists j :: 0 <= j < |bs| && bs[j].name == name
  }

  /** A merge request the reconciliation keeps: its source branch was fetched
      and is not in the exclusion list (exact string equality for both). */
  ghost predicate Kept(mr: MergeRequest, bs: seq<Branch>, exclude: seq<string>)
  {
    Fetched(bs, mr.sourceBranch) && mr.sourceBranch !in exclude
  }

  lemma KeepsIsKept(mr: MergeRequest, bs: seq<Branch>, exclude: seq<string>)
    ensures Keeps(IndexBy(bs, NameOf), IndexBy(exclude, Itself))(mr) == Kept(mr, bs, exclude)
  {
    IndexByLastWins(bs, NameOf, mr.sourceBranch);
    IndexByLastWins(exclude, Itself, mr.sourceBranch);
  }

  /** The entries are exactly the kept merge requests, in their original order
      and with nothing added: an ordered selection of the input that keeps
      every copy of a kept request. */
  lemma ReconciledSelects(mrs: seq<MergeRequest>, bs: seq<Branch>, es: seq<Event>, exclude: seq<string>)
    ensures var r := RequestsOf(Reconciled(mrs, bs, es, exclude));
      && IsSubsequence(r, mrs)
      && (forall mr :: mr in r <==> mr in mrs && Kept(mr, bs, exclude))
      && forall mr :: multiset(r)[mr] == if Kept(mr, bs, exclude) then multiset(mrs)[mr] else 0
  {
    var branches := IndexBy(bs, NameOf);
    var p := Keeps(branches, IndexBy(exclude, Itself));
    FilterSatisfies(mrs, p);
    JoinAllRequests(Filter(mrs, p), branches, IndexBy(es, TargetOf));
    FilterIsSubsequence(mrs, p);
    forall mr
      ensures mr in Filter(mrs, p) <==> mr in mrs && Kept(mr, bs, exclude)
      ensures multiset(Filter(mrs, p))[mr] == if Kept(mr, bs, exclude) then multiset(mrs)[mr] else 0
    {
      FilterMembership(mrs, p, mr);
      FilterMultiset(mrs, p, mr);
      KeepsIsKept(mr, bs, exclude);
    }
  }

  /** Every entry's source branch was fetched under that name, is the last
      branch fetched with it, and is not excluded; its target branch is the
      last branch fetched with the target name, or absent when there is none;
      its event is the last merge or close event whose target is the request,
      or absent when there is none. */
  lemma ReconciledLookups(mrs: seq<MergeRequest>, bs: seq<Branch>, es: seq<Event>, exclude: seq<string>, i: int)
    requires 0 <= i < |Reconciled(mrs, bs, es, exclude)|
    ensures var e := Reconciled(mrs, bs, es, exclude)[i];
            var mr := e.mergeRequest;
      && mr.sourceBranch !in exclude
      && (exists j :: IsLastWithKey(bs, NameOf, mr.sourceBranch, j) && e.sourceBranch == bs[j])
      && (e.targetBranch.None? <==> !Fetched(bs, mr.targetBranch))
      && (e.targetBranch.Some? ==> exists j :: IsLastWithKey(bs, NameOf, mr.targetBranch, j) && e.targetBranch.value == bs[j])
      && (e.event.None? <==> forall j :: 0 <= j < |es| ==> es[j].targetIID != mr.iid)
      && (e.event.Some? ==> exists j :: IsLastWithKey(es, TargetOf, mr.iid, j) && e.event.value == es[j])
  {
    var branches := IndexBy(bs, NameOf);
    var events := IndexBy(es, TargetOf);
    var p := Keeps(branches, IndexBy(exclude, Itself));
    var kept := Filter(mrs, p);
    FilterSatisfies(mrs, p);
    JoinAllRequests(kept, branches, events);
    var mr := kept[i];
    KeepsIsKept(mr, bs, exclude);
    IndexByLastWins(bs, NameOf, mr.sourceBranch);
    IndexByLastWins(bs, NameOf, mr.targetBranch);
    IndexByLastWins(es, TargetOf, mr.iid);
  }

  lemma {:induction false} JoinAllConcat(a: seq<MergeRequest>, b: seq<MergeRequest>,
                                         branches: map<string, Branch>, events: map<int, Event>)
    requires forall i :: 0 <= i < |a| ==> a[i].sourceBranch in branches
    requires forall i :: 0 <= i < |b| ==> b[i].sourceBranch in branches
    ensures JoinAll(a + b, branches, events) == JoinAll(a, branches, events) + JoinAll(b, branches, events)
    decreases |b|
  {
    if b == [] {
      assert a + b == a;
    } else {
      assert (a + b)[..|a + b| - 1] == a + b[..|b| - 1];
      JoinAllConcat(a, b[..|b| - 1], branches, events);
    }
  }

  /** Reconciling merged ++ closed reconciles each part: kept merged requests
      come before kept closed ones. */
  lemma ReconciledConcat(merged: seq<MergeRequest>, closed: seq<MergeRequest>,
                         bs: seq<Branch>, es: seq<Event>, exclude: seq<string>)
    ensures Reconciled(merged + closed, bs, es, exclude)
         == Reconciled(merged, bs, es, exclude) + Reconciled(closed, bs, es, exclude)
  {
    var branches := IndexBy(bs, NameOf);
    var p := Keeps(branches, IndexBy(exclude, Itself));
    FilterConcat(merged, closed, p);
    FilterSatisfies(merged, p);
    FilterSatisfies(closed, p);
    JoinAllConcat(Filter(merged, p), Filter(closed, p), branches, IndexBy(es, TargetOf));
  }

  /** Exclusions that name no fetched branch remove nothing: an empty list, and
      the list [""] that splitting an empty flag value on "," produces, when no
      branch has the empty name. */
  lemma ExcludingUnknownNames(mrs: seq<MergeRequest>, bs: seq<Branch>, es: seq<Event>, exclude: seq<string>)
    requires forall k :: 0 <= k < |exclude| ==> !Fetched(bs, exclude[k])
    ensures Reconciled(mrs, bs, es, exclude) == Reconciled(mrs, bs, es, [])
  {
    var branches := IndexBy(bs, NameOf);
    forall i | 0 <= i < |mrs|
      ensures Keeps(branches, IndexBy(exclude, Itself))(mrs[i]) == Keeps(branches, IndexBy([], Itself))(mrs[i])
    {
      KeepsIsKept(mrs[i], bs, exclude);
      KeepsIsKept(mrs[i], bs, []);
    }
    FilterAgree(mrs, Keeps(branches, IndexBy(exclude, Itself)), Keeps(branches, IndexBy([], Itself)));
  }
}
