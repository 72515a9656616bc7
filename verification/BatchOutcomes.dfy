/** What became of every attempt, over every run: an item stands failed, uncertain or succeeded for
    what the provider answered its last attempt, or because the attempt was interrupted. */
module BatchOutcomes {
  import opened BatchManifest
  import opened BatchProtocol
  import opened BatchSafety
  import opened Options

  /** The call for this request has returned with this response. */
  predicate Told(h: seq<Event>, request: ExecutionRequest, r: Response) {
    exists p :: 0 <= p < |h| && h[p].Returned? && h[p].request == request && h[p].response == r
  }

  /** A failed or uncertain item was settled on the response to its own last request, or interrupted. */
  ghost predicate Explained(job: Job, h: seq<Event>, item: Item) {
    item.status.Failed? || item.status.Uncertain? ==>
      || (item.status.Uncertain? && item.failure == INTERRUPTED)
      || exists r :: Told(h, RequestFor(job, item), r) && Settles(job.header.model, r, item.status, item.failure)
  }

  /** What is published is what the provider returned for that request. */
  ghost predicate Earned(job: Job, h: seq<Event>, e: Envelope) {
    exists r :: Told(h, e.request, r) && Accepts(job.header.model, r) && r.answer.output.content == e.content
  }

  ghost predicate FlightTold(s: State) {
    match s.flight
    case Answered(i, r) => i < |s.manifest.items| && Told(s.history, RequestFor(s.manifest, s.manifest.items[i]), r)
    case Committed(i) =>
      && i < |s.manifest.items|
      && exists r ::
           Told(s.history, RequestFor(s.manifest, s.manifest.items[i]), r) && Usable(s.manifest.header.model, r)
    case _ => true
  }

  /** How often an attempt of the item has been recorded. */
  function RecordedCount(h: seq<Event>, id: ItemId): nat {
    if h == [] then 0
    else
      var last := h[|h| - 1];
      RecordedCount(h[..|h| - 1], id) + if last.Recorded? && last.request.itemId == id then 1 else 0
  }

  lemma RecordedMore(h: seq<Event>, e: Event, id: ItemId)
    ensures RecordedCount(h + [e], id) ==
            RecordedCount(h, id) + if e.Recorded? && e.request.itemId == id then 1 else 0
  {
    assert (h + [e])[..|h|] == h;
  }

  /** The durable counter of an item counts exactly the attempts recorded for it. */
  predicate Tallied(h: seq<Event>, item: Item) { item.attempts == RecordedCount(h, item.planned.id) }

  ghost predicate ItemAccounted(job: Job, h: seq<Event>, item: Item) { Explained(job, h, item) && Tallied(h, item) }

  ghost predicate Accounts(s: State) {
    && (forall i :: 0 <= i < |s.manifest.items| ==> ItemAccounted(s.manifest, s.history, s.manifest.items[i]))
    && (forall id :: id in s.results ==> Earned(s.manifest, s.history, s.results[id]))
    && FlightTold(s)
  }

  // ---- histories grow ----

  lemma ToldGrows(h: seq<Event>, e: Event, request: ExecutionRequest, r: Response)
    requires Told(h, request, r)
    ensures Told(h + [e], request, r)
  {
    var p :| 0 <= p < |h| && h[p].Returned? && h[p].request == request && h[p].response == r;
    assert (h + [e])[p] == h[p];
  }

  lemma EarnedGrows(job: Job, h: seq<Event>, e: Event, x: Envelope)
    requires Earned(job, h, x)
    ensures Earned(job, h + [e], x)
  {
    hide Told;
    var r :| Told(h, x.request, r) && Accepts(job.header.model, r) && r.answer.output.content == x.content;
    ToldGrows(h, e, x.request, r);
  }

  lemma ItemGrown(job: Job, h: seq<Event>, e: Event, item: Item)
    requires ItemAccounted(job, h, item) && !(e.Recorded? && e.request.itemId == item.planned.id)
    ensures ItemAccounted(job, h + [e], item)
  {
    hide Told, Settles, RecordedCount;
    RecordedMore(h, e, item.planned.id);
    if item.status.Failed? || (item.status.Uncertain? && item.failure != INTERRUPTED) {
      var r :| Told(h, RequestFor(job, item), r) && Settles(job.header.model, r, item.status, item.failure);
      ToldGrows(h, e, RequestFor(job, item), r);
    }
  }

  /** Only what identifies the job matters. */
  lemma SameJob(job: Job, job': Job, h: seq<Event>, item: Item)
    requires job'.header == job.header && job'.id == job.id && ItemAccounted(job, h, item)
    ensures ItemAccounted(job', h, item)
  {
  }

  // ---- each step ----

  /** One item changed, nothing recorded: the rest stays accounted for. */
  lemma OneItemChanged(s: State, s': State, i: nat)
    requires Accounts(s) && s'.history == s.history && s'.results == s.results
    requires s'.manifest.header == s.manifest.header && s'.manifest.id == s.manifest.id
    requires i < |s.manifest.items| == |s'.manifest.items|
    requires forall k :: 0 <= k < |s.manifest.items| && k != i ==> s'.manifest.items[k] == s.manifest.items[k]
    requires ItemAccounted(s'.manifest, s.history, s'.manifest.items[i])
    requires FlightTold(s')
    ensures Accounts(s')
  {
    hide ItemAccounted, Earned, FlightTold;
    forall k | 0 <= k < |s'.manifest.items| ensures ItemAccounted(s'.manifest, s'.history, s'.manifest.items[k]) {
      if k != i {
        SameJob(s.manifest, s'.manifest, s.history, s.manifest.items[k]);
      }
    }
    forall id | id in s'.results ensures Earned(s'.manifest, s'.history, s'.results[id]) {
      SameEarned(s.manifest, s'.manifest, s.history, s.results[id]);
    }
  }

  lemma SameEarned(job: Job, job': Job, h: seq<Event>, e: Envelope)
    requires job'.header == job.header && Earned(job, h, e)
    ensures Earned(job', h, e)
  {
  }

  /** One event more, no item changed. */
  lemma OneEventMore(s: State, s': State, e: Event)
    requires Accounts(s) && s'.manifest == s.manifest && s'.history == s.history + [e] && !e.Recorded?
    requires forall id :: id in s'.results ==>
               (id in s.results && s'.results[id] == s.results[id]) || Earned(s.manifest, s.history, s'.results[id])
    requires FlightTold(s')
    ensures Accounts(s')
  {
    hide ItemAccounted, Earned, FlightTold;
    forall k | 0 <= k < |s'.manifest.items| ensures ItemAccounted(s'.manifest, s'.history, s'.manifest.items[k]) {
      ItemGrown(s.manifest, s.history, e, s.manifest.items[k]);
    }
    forall id | id in s'.results ensures Earned(s'.manifest, s'.history, s'.results[id]) {
      EarnedGrows(s.manifest, s.history, e, s'.results[id]);
    }
  }

  lemma RecoverAccounts(s: State, s': State, i: nat, at: Instant)
    requires Accounts(s) && Next(s, s', Recover(i, at))
    ensures Accounts(s')
  {
    hide Told, RecordedCount;
    SameJob(s.manifest, s'.manifest, s.history, s.manifest.items[i]);
    OneItemChanged(s, s', i);
  }

  lemma ArmAccounts(s: State, s': State, i: nat)
    requires JobOk(s.manifest) && Accounts(s) && Next(s, s', Arm(i))
    ensures Accounts(s')
  {
    hide Explained, Earned, RecordedCount, JobOk, NextRequest;
    var item, e := s.manifest.items[i], Recorded(NextRequest(s.manifest, s.manifest.items[i]));
    assert e.request.itemId == item.planned.id && s'.manifest.items[i] == Attempted(s.manifest, item) by {
      NextRequestOf(s.manifest, item);
    }
    forall k | 0 <= k < |s'.manifest.items| ensures ItemAccounted(s'.manifest, s'.history, s'.manifest.items[k]) {
      if k == i {
        RecordedMore(s.history, e, item.planned.id);
        RunningExplained(s'.manifest, s'.history, s'.manifest.items[i]);
        NextRequestOf(s.manifest, item);
      } else {
        OtherId(s.manifest, i, k);
        SameJob(s.manifest, s'.manifest, s.history, s.manifest.items[k]);
        ItemGrown(s'.manifest, s.history, e, s.manifest.items[k]);
      }
    }
    forall id | id in s'.results ensures Earned(s'.manifest, s'.history, s'.results[id]) {
      SameEarned(s.manifest, s'.manifest, s.history, s.results[id]);
      EarnedGrows(s'.manifest, s.history, e, s.results[id]);
    }
  }

  lemma NextRequestOf(job: Job, item: Item)
    ensures NextRequest(job, item).itemId == item.planned.id && NextRequest(job, item).attempt == item.attempts + 1
  {
  }

  lemma RunningExplained(job: Job, h: seq<Event>, item: Item)
    requires item.status.Running?
    ensures Explained(job, h, item)
  {
  }

  lemma ReturnAccounts(s: State, s': State, r: Response)
    requires Accounts(s) && Next(s, s', Return(r))
    ensures Accounts(s')
  {
    hide ItemAccounted, Earned;
    var e := Returned(RequestFor(s.manifest, s.manifest.items[s.flight.i]), s.now, r);
    assert s'.history[|s.history|] == e;
    OneEventMore(s, s', e);
  }

  lemma SettleAccounts(s: State, s': State, status: Status, failure: string, at: Instant)
    requires Accounts(s) && Next(s, s', Settle(status, failure, at))
    ensures Accounts(s')
  {
    hide Told, RecordedCount, Earned, Definite, Usable;
    var i := s.flight.i;
    var item := s'.manifest.items[i];
    var request := RequestFor(s.manifest, s.manifest.items[i]);
    assert RequestFor(s'.manifest, item) == request;
    assert Tallied(s.history, item);
    if s.flight.Committed? {
      var r :| Told(s.history, request, r) && Usable(s.manifest.header.model, r);
      assert Settles(s.manifest.header.model, r, status, failure);
    }
    OneItemChanged(s, s', i);
  }

  lemma PublishAccounts(s: State, s': State)
    requires Accounts(s) && Next(s, s', Publish)
    ensures Accounts(s')
  {
    hide ItemAccounted, Told, RefFor;
    var item, r := s.manifest.items[s.flight.i], s.flight.response;
    var e := s'.results[item.planned.id];
    assert Told(s.history, e.request, r) && Accepts(s.manifest.header.model, r) && r.answer.output.content == e.content;
    ToldGrows(s.history, Published(e), e.request, r);
    OneEventMore(s, s', Published(e));
  }

  lemma ConfirmAccounts(s: State, s': State, at: Instant)
    requires Accounts(s) && Next(s, s', Confirm(at))
    ensures Accounts(s')
  {
    hide Told, RecordedCount, Earned;
    OneItemChanged(s, s', s.flight.i);
  }

  lemma QuietAccounts(s: State, s': State, l: Label)
    requires Accounts(s) && Next(s, s', l)
    requires l.Tick? || l.Abort? || l.Admit? || l.Begin? || l.Call?
    ensures Accounts(s')
  {
    hide ItemAccounted, Earned, RequestFor;
    if l.Begin? || l.Call? {
      OneEventMore(s, s', s'.history[|s.history|]);
    }
  }

  lemma StepAccounts(s: State, s': State, l: Label)
    requires JobOk(s.manifest) && Accounts(s) && Next(s, s', l)
    ensures Accounts(s')
  {
    hide JobOk, Accounts, Next;
    match l
    case Recover(i, at) => RecoverAccounts(s, s', i, at);
    case Arm(i) => ArmAccounts(s, s', i);
    case Return(r) => ReturnAccounts(s, s', r);
    case Settle(status, failure, at) => SettleAccounts(s, s', status, failure, at);
    case Publish => PublishAccounts(s, s');
    case Confirm(at) => ConfirmAccounts(s, s', at);
    case _ => QuietAccounts(s, s', l);
  }

  lemma InitialAccounts(s: State)
    requires Initial(s)
    ensures Accounts(s)
  {
  }

  lemma {:induction false} RunAccounts(trace: seq<State>, n: nat)
    requires IsRun(trace) && n < |trace|
    ensures Accounts(trace[n])
    decreases n
  {
    hide Next, Accounts, FlightOk, HistoryOk, JobOk;
    if n > 0 {
      RunAccounts(trace, n - 1);
      RunKeepsInv(trace, n - 1);
      assert Step(trace[n - 1], trace[n]);
      var l :| Next(trace[n - 1], trace[n], l);
      StepAccounts(trace[n - 1], trace[n], l);
    } else {
      InitialAccounts(trace[0]);
    }
  }

  // ---- what every item stands for ----

  lemma ReasonsDiffer()
    ensures INTERRUPTED != UNVERIFIABLE && INTERRUPTED != UNCONFIRMED && UNVERIFIABLE != UNCONFIRMED
  {
    assert |INTERRUPTED| != |UNVERIFIABLE|;
    assert |INTERRUPTED| != |UNCONFIRMED|;
    assert |UNVERIFIABLE| != |UNCONFIRMED|;
  }

  /** How an item stands, by the response to its last request alone. */
  ghost predicate Stands(job: Job, h: seq<Event>, results: map<ItemId, Envelope>, item: Item) {
    var model, request := job.header.model, RequestFor(job, item);
    match item.status
    case Failed => exists r :: Told(h, request, r) && Definite(model, r) && Labels(r, item.failure)
    case Uncertain =>
      || item.failure == INTERRUPTED
      || (item.failure == UNVERIFIABLE && exists r :: Told(h, request, r) && !Usable(model, r) && !Definite(model, r))
      || (item.failure == UNCONFIRMED && exists r :: Told(h, request, r) && Usable(model, r))
    case Succeeded =>
      && item.planned.id in results && item.result == Some(results[item.planned.id].result)
      && results[item.planned.id].request == request
      && exists r :: Told(h, request, r) && Accepts(model, r)
                     && r.answer.output.content == results[item.planned.id].content
    case _ => true
  }

  /** In every run an item is left failed only by a definite failure of its last attempt; uncertain by
      an interruption, by a failure that an ended context or its own kind leaves open, or by output whose
      commit was not confirmed; and succeeded with exactly the output of the planned model. Its counter
      counts the attempts recorded. */
  lemma EveryItemStands(trace: seq<State>, i: nat)
    requires IsRun(trace) && i < |trace[|trace| - 1].manifest.items|
    ensures var s := trace[|trace| - 1];
            && Stands(s.manifest, s.history, s.results, s.manifest.items[i])
            && s.manifest.items[i].attempts == RecordedCount(s.history, s.manifest.items[i].planned.id)
  {
    hide FlightOk, HistoryOk, RecordedCount, Told, Stands, Explained;
    var s := trace[|trace| - 1];
    RunKeepsInv(trace, |trace| - 1);
    RunAccounts(trace, |trace| - 1);
    assert ItemAccounted(s.manifest, s.history, s.manifest.items[i]);
    if s.manifest.items[i].status.Succeeded? {
      SucceededStands(s, i);
    } else {
      UnsucceededStands(s.manifest, s.history, s.results, s.manifest.items[i]);
    }
  }

  lemma UnsucceededStands(job: Job, h: seq<Event>, results: map<ItemId, Envelope>, item: Item)
    requires Explained(job, h, item) && !item.status.Succeeded?
    ensures Stands(job, h, results, item)
  {
    hide Told, Definite, Usable, Labels, RequestFor;
  }

  lemma SucceededStands(s: State, i: nat)
    requires ResultsOk(s.manifest, s.results) && Accounts(s)
    requires i < |s.manifest.items| && s.manifest.items[i].status.Succeeded?
    ensures Stands(s.manifest, s.history, s.results, s.manifest.items[i])
  {
    hide Told, ItemAccounted, FlightTold;
    var item := s.manifest.items[i];
    assert EnvelopeOk(s.manifest, item, s.results[item.planned.id]);
    assert Earned(s.manifest, s.history, s.results[item.planned.id]);
  }

  /** The item of an attempt that nothing disturbed: succeeded if the output could be published, else
      settled on its response. */
  predicate Left(model: Model, r: Response, item: Item) {
    if Accepts(model, r) then item.status.Succeeded? else Settles(model, r, item.status, item.failure)
  }

  // ---- the intervals by route ----

  /** Calls are at least 15 seconds apart on the cloud and ChatGPT routes and 45 on the larger cloud
      model, counted from the end of the earlier call. */
  lemma PacedByRoute(trace: seq<State>)
    requires IsRun(trace)
    ensures var s := trace[|trace| - 1];
            && (s.manifest.header.model.Cloud? || s.manifest.header.model.ChatGpt? ==> Paced(s.history, 15000))
            && (s.manifest.header.model.CloudPro? ==> Paced(s.history, 45000))
    ensures Gap(trace[|trace| - 1]) == match trace[|trace| - 1].manifest.header.model
                                       case Cloud => 15000
                                       case ChatGpt => 15000
                                       case CloudPro => 45000
                                       case _ => 0
  {
    EveryRunIsSafe(trace);
  }
}
