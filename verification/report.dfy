/** `sendAll` and the task entry point `MergeRequests`: select the merged
    entries, render a Mattermost message, and post it unless in dry-run. */
module Report {
  import opened Wrappers
  import opened Decimal
  import opened Collections
  import opened Pagination
  import opened Reconcile

  datatype SendError =
    | MissingEvent(iid: int)         // `mr.event` is nil: Go dereferences it and panics
    | MissingTargetBranch(iid: int)  // `mr.targetBranch` is nil: likewise
    | PostFailed(cause: string)      // the webhook POST returned an error

  datatype TaskError = Fetching(fetch: PageError) | Sending(send: SendError)

  /** What leaves the task: nothing, the text written to the log (dry-run), or
      the text posted to the webhook. */
  datatype Delivery = Nothing | Logged(text: string) | Posted(text: string)

  function IsMerged(e: Entry): bool { e.mergeRequest.state == "merged" }

  /** The first part of the message; it ends without a line break. */
  function Header(n: nat): string
  {
    "Hi there are " + IntToString(n) + " branche(s) to remove !"
  }

  /** One entry's line. The event is checked before the target branch; that
      order is a modelling choice, since Go does not fix the order of the two
      field reads in the `Sprintf` call, and both panic alike when nil. */
  function Line(e: Entry): (r: Result<string, SendError>)
    ensures r.Ok? <==> e.event.Some? && e.targetBranch.Some?
    ensures r.Ok? ==> |r.value| > 0 && r.value[|r.value| - 1] == '\n'
  {
    if e.event.None? then Err(MissingEvent(e.mergeRequest.iid))
    else if e.targetBranch.None? then Err(MissingTargetBranch(e.mergeRequest.iid))
    else Ok(LineText(e.mergeRequest, e.event.value.authorUsername, e.targetBranch.value.name, e.sourceBranch.name))
  }

  /** The `Sprintf` format of one line, filled in: the pieces below, then a line break. */
  function LineText(mr: MergeRequest, author: string, target: string, source: string): (s: string)
    ensures |s| > 0 && s[|s| - 1] == '\n'
  {
    Flatten(LinePieces(mr, author, target, source)) + "\n"
  }

  function LinePieces(mr: MergeRequest, author: string, target: string, source: string): seq<string>
  {
    ["MR **[", IntToString(mr.iid), "](", mr.webURL, ")** was **", mr.state,
     "** by @", author, " in **", target,
     "** and source branch **", source, "** still exists, please remove it."]
  }

  /** The lines of `es` in order, or the error of the first entry that has none. */
  function Lines(es: seq<Entry>): Result<string, SendError>
  {
    if es == [] then Ok("")
    else match Lines(es[..|es| - 1])
      case Err(e) => Err(e)
      case Ok(body) =>
        match Line(es[|es| - 1])
        case Err(e) => Err(e)
        case Ok(line) => Ok(body + line)
  }

  /** The message built from the merged entries: the header, then their lines. */
  function Message(merged: seq<Entry>): Result<string, SendError>
  {
    var body :- Lines(merged);
    Ok(Header(|merged|) + body)
  }

  /** The message `sendAll` builds from a non-empty entry list. */
  function Report(entries: seq<Entry>): Result<string, SendError>
  {
    Message(Filter(entries, IsMerged))
  }

  /** `sendAll`. Note that the emptiness test is on all entries, not on the
      merged ones: a non-empty list of closed entries still sends a message
      that counts 0 branches. `postError` is what the webhook POST answers. */
  method SendAll(entries: seq<Entry>, dryRun: bool, postError: Option<string>)
    returns (delivery: Delivery, err: Option<SendError>)
    ensures entries == [] ==> delivery == Nothing && err == None
    ensures entries != [] && Report(entries).Err? ==>
              delivery == Nothing && err == Some(Report(entries).error)
    ensures entries != [] && Report(entries).Ok? && dryRun ==>
              delivery == Logged(Report(entries).value) && err == None
    ensures entries != [] && Report(entries).Ok? && !dryRun ==>
              delivery == Posted(Report(entries).value) &&
              err == (if postError.Some? then Some(PostFailed(postError.value)) else None)
  {
    if |entries| < 1 {
      return Nothing, None;
    }

    var mergedMRs := SelectMerged(entries);
    var message := Render(mergedMRs);
    if message.Err? {
      return Nothing, Some(message.error);
    }
    var text := message.value;
    if !dryRun {
      delivery := Posted(text);
      err := if postError.Some? then Some(PostFailed(postError.value)) else None;
    } else {
      delivery, err := Logged(text), None;
    }
  }

  /** The first loop of `sendAll`: the entries whose request is merged, in order. */
  method SelectMerged(entries: seq<Entry>) returns (mergedMRs: seq<Entry>)
    ensures mergedMRs == Filter(entries, IsMerged)
  {
    mergedMRs := [];
    for i := 0 to |entries|
      invariant mergedMRs == Filter(entries[..i], IsMerged)
    {
      assert entries[..i + 1][..i] == entries[..i];
      if entries[i].mergeRequest.state == "merged" {
        mergedMRs := mergedMRs + [entries[i]];
      }
    }
    assert entries[..|entries|] == entries;
  }

  /** The second loop of `sendAll`: the header, then one line per merged entry;
      the first entry without an event or a target branch stops it. */
  method Render(mergedMRs: seq<Entry>) returns (r: Result<string, SendError>)
    ensures r == Message(mergedMRs)
  {
    var text := Header(|mergedMRs|);
    ghost var body := "";
    for i := 0 to |mergedMRs|
      invariant Lines(mergedMRs[..i]) == Ok(body)
      invariant text == Header(|mergedMRs|) + body
    {
      // The `Sprintf` reads `mr.event` and `mr.targetBranch`; Go panics on a
      // nil pointer, which `Line` reports as the error.
      var line := Line(mergedMRs[i]);
      LinesStep(mergedMRs, i);
      if line.Err? {
        LinesStopAtFirstError(mergedMRs, i + 1);
        return Err(line.error);
      }
      text := text + line.value;
      body := body + line.value;
    }
    assert mergedMRs[..|mergedMRs|] == mergedMRs;
    return Ok(text);
  }

  /** The lines of one more entry: its line appended, or its error. */
  lemma LinesStep(es: seq<Entry>, i: nat)
    requires i < |es| && Lines(es[..i]).Ok?
    ensures Lines(es[..i + 1]) == match Line(es[i])
                                  case Ok(line) => Ok(Lines(es[..i]).value + line)
                                  case Err(e) => Err(e)
  {
    assert es[..i + 1][..i] == es[..i];
  }

  /** `MergeRequests`: reconcile, then send. A fetch failure sends nothing. */
  method MergeRequests(src: Sources, exclude: seq<string>, dryRun: bool, postError: Option<string>)
    returns (delivery: Delivery, err: Option<TaskError>)
    ensures Reconciliation(src, exclude).Err? ==>
              delivery == Nothing && err == Some(Fetching(Reconciliation(src, exclude).error))
    ensures delivery.Posted? <==>
              !dryRun && Reconciliation(src, exclude).Ok? && Reconciliation(src, exclude).value != [] &&
              Report(Reconciliation(src, exclude).value).Ok?
    ensures delivery.Logged? <==>
              dryRun && Reconciliation(src, exclude).Ok? && Reconciliation(src, exclude).value != [] &&
              Report(Reconciliation(src, exclude).value).Ok?
    ensures !delivery.Nothing? ==> delivery.text == Report(Reconciliation(src, exclude).value).value
    ensures Reconciliation(src, exclude).Ok? ==>
              var es := Reconciliation(src, exclude).value;
              err == if es == [] then None
                     else if Report(es).Err? then Some(Sending(Report(es).error))
                     else if !dryRun && postError.Some? then Some(Sending(PostFailed(postError.value)))
                     else None
  {
    var mrs := GetMergeRequests(src, exclude);
    if mrs.Err? {
      return Nothing, Some(Fetching(mrs.error));
    }
    var sendErr;
    delivery, sendErr := SendAll(mrs.value, dryRun, postError);
    err := if sendErr.Some? then Some(Sending(sendErr.value)) else None;
  }

  /** Once the lines of a prefix fail, the lines of the whole list fail the same way. */
  lemma {:induction false} LinesStopAtFirstError(es: seq<Entry>, k: nat)
    requires k <= |es| && Lines(es[..k]).Err?
    ensures Lines(es) == Lines(es[..k])
    decreases |es| - k
  {
    if k < |es| {
      assert es[..k + 1][..k] == es[..k];
      LinesStopAtFirstError(es, k + 1);
    } else {
      assert es[..k] == es;
    }
  }

  /** The lines of a list are the lines of its entries, one after the other;
      they fail exactly when some entry lacks its event or its target branch,
      and then with the error of the first such entry. */
  lemma {:induction false} LinesOutcome(es: seq<Entry>)
    ensures Lines(es).Ok? <==> forall i :: 0 <= i < |es| ==> Line(es[i]).Ok?
    ensures Lines(es).Err? ==>
              exists k :: 0 <= k < |es| && Line(es[k]) == Err(Lines(es).error) &&
                          forall j :: 0 <= j < k ==> Line(es[j]).Ok?
  {
    if es != [] {
      var es' := es[..|es| - 1];
      LinesOutcome(es');
      assert forall i :: 0 <= i < |es'| ==> es'[i] == es[i];
    }
  }

  function CountChar(c: char, s: string): nat
  {
    if s == [] then 0 else CountChar(c, s[..|s| - 1]) + (if s[|s| - 1] == c then 1 else 0)
  }

  lemma {:induction false} CountCharConcat(c: char, a: string, b: string)
    ensures CountChar(c, a + b) == CountChar(c, a) + CountChar(c, b)
    decreases |b|
  {
    if b != [] {
      assert (a + b)[..|a + b| - 1] == a + b[..|b| - 1];
      CountCharConcat(c, a, b[..|b| - 1]);
    } else {
      assert a + b == a;
    }
  }

  lemma {:induction false} CountCharAbsent(c: char, s: string)
    requires c !in s
    ensures CountChar(c, s) == 0
  {
    if s != [] {
      assert c !in s[..|s| - 1];
      CountCharAbsent(c, s[..|s| - 1]);
    }
  }

  /** No text the entry contributes to its line holds a line break. */
  predicate SingleLine(e: Entry)
  {
    && '\n' !in e.mergeRequest.webURL && '\n' !in e.mergeRequest.state
    && '\n' !in e.sourceBranch.name
    && (e.event.Some? ==> '\n' !in e.event.value.authorUsername)
    && (e.targetBranch.Some? ==> '\n' !in e.targetBranch.value.name)
  }

  lemma PiecesHaveNoBreak(mr: MergeRequest, author: string, target: string, source: string)
    requires '\n' !in mr.webURL && '\n' !in mr.state && '\n' !in author && '\n' !in target && '\n' !in source
    ensures forall k :: 0 <= k < |LinePieces(mr, author, target, source)| ==> '\n' !in LinePieces(mr, author, target, source)[k]
  {
    IntToStringHasNoNewline(mr.iid);
  }

  lemma {:induction false} FlattenHasNoBreak(ss: seq<string>)
    requires forall k :: 0 <= k < |ss| ==> '\n' !in ss[k]
    ensures CountChar('\n', Flatten(ss)) == 0
  {
    if ss != [] {
      FlattenHasNoBreak(ss[..|ss| - 1]);
      CountCharAbsent('\n', ss[|ss| - 1]);
      CountCharConcat('\n', Flatten(ss[..|ss| - 1]), ss[|ss| - 1]);
    }
  }

  lemma LineHasOneBreak(e: Entry)
    requires Line(e).Ok? && SingleLine(e)
    ensures CountChar('\n', Line(e).value) == 1
  {
    var pieces := LinePieces(e.mergeRequest, e.event.value.authorUsername, e.targetBranch.value.name, e.sourceBranch.name);
    PiecesHaveNoBreak(e.mergeRequest, e.event.value.authorUsername, e.targetBranch.value.name, e.sourceBranch.name);
    FlattenHasNoBreak(pieces);
    CountCharConcat('\n', Flatten(pieces), "\n");
    assert CountChar('\n', "\n") == CountChar('\n', "") + 1;
  }

  lemma HeaderHasNoBreak(n: nat)
    ensures CountChar('\n', Header(n)) == 0
  {
    IntToStringHasNoNewline(n);
    CountCharAbsent('\n', "Hi there are ");
    CountCharAbsent('\n', IntToString(n));
    CountCharAbsent('\n', " branche(s) to remove !");
    CountCharConcat('\n', "Hi there are ", IntToString(n));
    CountCharConcat('\n', "Hi there are " + IntToString(n), " branche(s) to remove !");
  }

  function Flatten(ss: seq<string>): string
  {
    if ss == [] then "" else Flatten(ss[..|ss| - 1]) + ss[|ss| - 1]
  }

  /** The message is the header counting the merged entries, then exactly one
      line per merged entry: it has as many line breaks as there are merged
      entries, and ends with one when there is at least one. */
  lemma ReportShape(entries: seq<Entry>)
    requires Report(entries).Ok?
    requires forall i :: 0 <= i < |entries| ==> SingleLine(entries[i])
    ensures var n := |Filter(entries, IsMerged)|;
      && Report(entries).value[..|Header(n)|] == Header(n)
      && CountChar('\n', Report(entries).value) == n
      && (n > 0 ==> Report(entries).value[|Report(entries).value| - 1] == '\n')
  {
    var merged := Filter(entries, IsMerged);
    var n := |merged|;
    var body := Lines(merged).value;
    assert Report(entries).value == Header(n) + body;
    forall i | 0 <= i < n ensures SingleLine(merged[i]) {
      FilterMembership(entries, IsMerged, merged[i]);
    }
    LinesBreaks(merged);
    HeaderHasNoBreak(n);
    CountCharConcat('\n', Header(n), body);
  }

  lemma {:induction false} LinesBreaks(es: seq<Entry>)
    requires Lines(es).Ok?
    requires forall i :: 0 <= i < |es| ==> SingleLine(es[i])
    ensures CountChar('\n', Lines(es).value) == |es|
    ensures es != [] ==> |Lines(es).value| > 0 && Lines(es).value[|Lines(es).value| - 1] == '\n'
  {
    if es != [] {
      var es' := es[..|es| - 1];
      var last := es[|es| - 1];
      LinesBreaks(es');
      LineHasOneBreak(last);
      CountCharConcat('\n', Lines(es').value, Line(last).value);
    }
  }

  /** Closed entries play no part in the message, whatever they hold. */
  lemma ReportIgnoresClosed(entries: seq<Entry>)
    ensures Report(entries) == Report(Filter(entries, IsMerged))
  {
    FilterIdempotent(entries, IsMerged);
  }

  /** Without merged entries the message is the bare header counting 0. */
  lemma ReportWithoutMerged(entries: seq<Entry>)
    requires forall i :: 0 <= i < |entries| ==> !IsMerged(entries[i])
    ensures Report(entries) == Ok("Hi there are 0 branche(s) to remove !")
  {
    var merged := Filter(entries, IsMerged);
    if merged != [] {
      FilterMembership(entries, IsMerged, merged[0]);
    }
    assert merged == [];
    assert Lines(merged) == Ok("");
    assert IntToString(0) == "0";
    assert Header(0) + "" == "Hi there are 0 branche(s) to remove !";
  }

  // Worked cases: merged request #1 from branch "a" into "main", closed by alice.

  const Request1 := MergeRequest(1, "a", "main", "merged", "https://git/mr/1")
  const ClosedBy := [Event(1, "alice")]

  lemma {:induction false} ReconciledRequest1(bs: seq<Branch>, branches: map<string, Branch>)
    requires IndexBy(bs, NameOf) == branches && "a" in branches
    ensures Reconciled([Request1], bs, ClosedBy, [])
         == [Entry(branches["a"], Lookup(branches, "main"), Some(Event(1, "alice")), Request1)]
  {
    var p := Keeps(branches, IndexBy([], Itself));
    assert [Request1][..0] == [];
    assert p(Request1);
    assert Filter([Request1], p) == Filter([], p) + [Request1];
    assert ClosedBy[..0] == [];
    var events := IndexBy(ClosedBy, TargetOf);
    assert events == map[1 := Event(1, "alice")];
    FilterSatisfies([Request1], p);
    assert JoinAll([Request1], branches, events) == JoinAll([], branches, events) + [Join(Request1, branches, events)];
  }

  lemma ReportOfOne(e: Entry)
    requires IsMerged(e) && Line(e).Ok?
    ensures Report([e]) == Ok(Header(1) + Line(e).value)
  {
    assert [e][..0] == [];
    assert Filter([e], IsMerged) == [e];
    assert Lines([e]) == Ok("" + Line(e).value);
    assert "" + Line(e).value == Line(e).value;
  }

  /** With branches "a", "b" and "main" the message has the header and one
      line about request #1. */
  lemma ScenarioOneLine()
    ensures var entries := Reconciled([Request1], [Branch("a"), Branch("b"), Branch("main")], ClosedBy, []);
      Report(entries) == Ok(Header(1) + LineText(Request1, "alice", "main", "a"))
  {
    var bs := [Branch("a"), Branch("b"), Branch("main")];
    assert bs[..2][..1][..0] == [] && bs[..2][..1] == [Branch("a")] && bs[..2] == [Branch("a"), Branch("b")];
    assert IndexBy(bs[..2][..1], NameOf) == map["a" := Branch("a")];
    assert IndexBy(bs[..2], NameOf) == IndexBy(bs[..2][..1], NameOf)["b" := Branch("b")];
    var branches := map["a" := Branch("a"), "b" := Branch("b"), "main" := Branch("main")];
    assert IndexBy(bs, NameOf) == IndexBy(bs[..2], NameOf)["main" := Branch("main")];
    ReconciledRequest1(bs, branches);
    ReportOfOne(Entry(Branch("a"), Some(Branch("main")), Some(Event(1, "alice")), Request1));
  }

  /** With only branches "a" and "b" the target branch "main" is not found, so
      the request's line cannot be written and nothing is sent. */
  lemma ScenarioTargetNotFetched()
    ensures var entries := Reconciled([Request1], [Branch("a"), Branch("b")], ClosedBy, []);
      |entries| == 1 && Report(entries) == Err(MissingTargetBranch(1))
  {
    var bs := [Branch("a"), Branch("b")];
    assert bs[..1][..0] == [] && bs[..1] == [Branch("a")];
    assert IndexBy(bs[..1], NameOf) == map["a" := Branch("a")];
    var branches := map["a" := Branch("a"), "b" := Branch("b")];
    assert IndexBy(bs, NameOf) == IndexBy(bs[..1], NameOf)["b" := Branch("b")];
    ReconciledRequest1(bs, branches);
    assert "main" !in branches;
    var e := Entry(Branch("a"), None, Some(Event(1, "alice")), Request1);
    assert [e][..0] == [];
    assert Filter([e], IsMerged) == Filter([], IsMerged) + [e];
    assert Lines([e]) == Err(MissingTargetBranch(1));
  }

  /** Excluding "a", or having lost branch "a", leaves no entry: nothing is sent. */
  lemma ScenarioNoEntries()
    ensures Reconciled([Request1], [Branch("a"), Branch("b")], ClosedBy, ["a"]) == []
    ensures Reconciled([Request1], [Branch("b")], ClosedBy, []) == []
  {
    assert [Request1][..0] == [];
    var bs := [Branch("a"), Branch("b")];
    assert bs[..1][..0] == [] && bs[..1] == [Branch("a")];
    assert ["a"][..0] == [];
    assert IndexBy(["a"], Itself) == map["a" := "a"];
    assert [Branch("b")][..0] == [];
  }
}
