/** The durable manifest of one folder batch: its immutable plan, the mutable
    recovery state of every item, and the validation every load and save repeats.

    Digests are free constructors, so equal digests mean equal content; paths and
    source bytes are not part of the model. */
module BatchManifest {
  import opened Options

  const SCHEMA_VERSION := 1
  const MAX_CALLS_PER_INVOCATION := 100
  const MAX_RESULT_CONTENT_BYTES := 16 * 1024 * 1024
  const RESULT_SCHEMA_VERSION := 1

  /** A clock reading or a duration, in milliseconds. */
  type Instant = int

  datatype Model = Auto | Cloud | CloudPro | OnDevice | ChatGpt | Local | Unlisted(name: string)

  /** Only routes with a table row are concrete; auto is a policy. */
  predicate ConcreteModel(m: Model) {
    m == Cloud || m == CloudPro || m == OnDevice || m == ChatGpt || m == Local
  }

  function SpacingFor(m: Model): Instant {
    match m
    case Cloud => 15000
    case CloudPro => 45000
    case ChatGpt => 15000
    case _ => 0
  }

  datatype Kind = Text | Image
  datatype Status = Pending | Running | Succeeded | Failed | Uncertain

  datatype Digest = Digest(content: string)
  datatype ItemId = ItemId(name: string, kind: Kind, input: Digest)
  datatype JobId = JobId(header: Header, items: seq<ItemId>)
  datatype RequestId = NoRequest | RequestId(job: JobId, item: ItemId, attempt: int)
  datatype ResultId = ResultId(request: RequestId, digest: Digest)
  datatype ResultPath = ResultPath(item: ItemId)

  datatype ResultRef = ResultRef(
    id: ResultId, requestId: RequestId, path: ResultPath, digest: Digest, bytes: int, modelUsed: Model)

  /** The part of an item fixed at planning time. */
  datatype Planned = Planned(
    id: ItemId, name: string, kind: Kind, sourcePath: string, input: Digest, inputBytes: int, resultPath: ResultPath)

  datatype Item = Item(
    planned: Planned, status: Status, attempts: int, requestId: RequestId,
    result: Option<ResultRef>, failure: string)

  /** The manifest fields that identify the job. */
  datatype Header = Header(
    schemaVersion: int, inputDir: string, outputDir: string, jobPath: string,
    instructionSource: string, instruction: Digest, model: Model)

  datatype Job = Job(header: Header, id: JobId, notBefore: Instant, items: seq<Item>)

  datatype ExecutionRequest = ExecutionRequest(
    jobId: JobId, itemId: ItemId, attempt: int, requestId: RequestId, model: Model, kind: Kind,
    sourcePath: string, input: Digest, instructionSource: string, instruction: Digest)

  datatype ExecutionOutput = ExecutionOutput(content: string, validUtf8: bool, modelUsed: Model)

  /** An attempt's error: whether it says that a context ended, and the runner's classification. */
  datatype ExecuteError = ExecuteError(contextual: bool, kind: Option<string>)

  datatype Answer = Output(output: ExecutionOutput) | NoAnswer(error: ExecuteError)

  /** What comes of one call: the answer, and whether the invocation's context has ended by then. */
  datatype Response = Response(answer: Answer, ended: bool)

  datatype Envelope = Envelope(schemaVersion: int, request: ExecutionRequest, result: ResultRef, content: string)

  datatype InvocationOptions = InvocationOptions(
    maxCalls: int, retryFailed: bool, retryUncertain: bool, skipUncertain: bool)

  predicate OptionsOk(o: InvocationOptions) {
    1 <= o.maxCalls <= MAX_CALLS_PER_INVOCATION && !(o.retryUncertain && o.skipUncertain)
  }

  /** Byte order of names, as the code compares them. */
  predicate Below(a: string, b: string) {
    if b == "" then false
    else if a == "" then true
    else if a[0] == b[0] then Below(a[1..], b[1..])
    else a[0] < b[0]
  }

  /** One name comes before another: at the first place where they differ it has the smaller character,
      or it ends there. */
  ghost predicate Before(a: string, b: string) {
    exists k: nat :: k <= |a| && k <= |b| && a[..k] == b[..k] && k < |b| && (k == |a| || (k < |a| && a[k] < b[k]))
  }

  lemma {:induction false} BelowExactly(a: string, b: string)
    ensures Below(a, b) <==> Before(a, b)
    decreases |a|
  {
    if a != "" && b != "" && a[0] == b[0] {
      BelowExactly(a[1..], b[1..]);
      if k: nat :| k <= |a| && k <= |b| && a[..k] == b[..k] && k < |b| && (k == |a| || (k < |a| && a[k] < b[k])) {
        assert a[1..][..k - 1] == a[..k][1..] && b[1..][..k - 1] == b[..k][1..];
        assert Before(a[1..], b[1..]);
      }
      if Before(a[1..], b[1..]) {
        BeforeMore(a, b);
      }
    } else {
      assert a[..0] == b[..0];
    }
  }

  lemma BeforeMore(a: string, b: string)
    requires a != "" && b != "" && a[0] == b[0] && Before(a[1..], b[1..])
    ensures Before(a, b)
  {
    var c, d := a[1..], b[1..];
    var k: nat :| k <= |c| && k <= |d| && c[..k] == d[..k] && k < |d| && (k == |c| || (k < |c| && c[k] < d[k]));
    assert a[..k + 1] == [a[0]] + c[..k] && b[..k + 1] == [b[0]] + d[..k];
  }

  function ItemIds(items: seq<Item>): (ids: seq<ItemId>)
    ensures |ids| == |items|
    ensures forall i :: 0 <= i < |items| ==> ids[i] == items[i].planned.id
  {
    seq(|items|, i requires 0 <= i < |items| => items[i].planned.id)
  }

  function StableJobId(header: Header, items: seq<Item>): JobId {
    JobId(header, ItemIds(items))
  }

  const MAX_TEXT_INPUT_BYTES := 128 * 1024
  const MAX_IMAGE_INPUT_BYTES := 64 * 1024 * 1024

  predicate PlannedOk(p: Planned) {
    && p.name != ""
    && 1 <= p.inputBytes <= (if p.kind.Image? then 67108864 else 131072)
    && p.id == ItemId(p.name, p.kind, p.input)
    && p.resultPath == ResultPath(p.id)
  }

  predicate ResultOk(header: Header, item: Item, r: ResultRef) {
    && r.requestId == item.requestId
    && r.path == item.planned.resultPath
    && r.bytes >= 1
    && r.id == ResultId(r.requestId, r.digest)
    && r.modelUsed == header.model
  }

  predicate StateOk(header: Header, item: Item) {
    match item.status
    case Pending => item.result.None? && item.failure == ""
    case Running => item.attempts >= 1 && item.requestId != NoRequest && item.result.None? && item.failure == ""
    case Failed => item.attempts >= 1 && item.requestId != NoRequest && item.result.None? && item.failure != ""
    case Uncertain => item.attempts >= 1 && item.requestId != NoRequest && item.result.None? && item.failure != ""
    case Succeeded =>
      && item.attempts >= 1 && item.requestId != NoRequest && item.result.Some?
      && item.failure == "" && ResultOk(header, item, item.result.value)
  }

  predicate ItemOk(header: Header, id: JobId, item: Item) {
    && PlannedOk(item.planned)
    && item.attempts >= 0
    && StateOk(header, item)
    && (item.requestId != NoRequest ==> item.requestId == RequestId(id, item.planned.id, item.attempts))
  }

  predicate HeaderOk(h: Header) {
    h.schemaVersion == 1 && ConcreteModel(h.model)
  }

  /** Local and on-device routes take no images. */
  predicate ModelItemsOk(m: Model, items: seq<Item>) {
    m.OnDevice? || m.Local? ==> forall i :: 0 <= i < |items| ==> !items[i].planned.kind.Image?
  }

  predicate JobOk(job: Job) {
    && HeaderOk(job.header)
    && job.items != []
    && (forall i :: 0 <= i < |job.items| ==> ItemOk(job.header, job.id, job.items[i]))
    && (forall i :: 1 <= i < |job.items| ==> Below(job.items[i - 1].planned.name, job.items[i].planned.name))
    && (forall i, j :: 0 <= i < j < |job.items| ==> job.items[i].planned.id != job.items[j].planned.id)
    && (forall i, j :: 0 <= i < j < |job.items| ==> job.items[i].planned.name != job.items[j].planned.name)
    && ModelItemsOk(job.header.model, job.items)
    && job.id == StableJobId(job.header, job.items)
  }

  /** The first n items pass on their own, are in name order, and repeat no identity. */
  predicate Checked(job: Job, n: nat)
    requires n <= |job.items|
  {
    && (forall i :: 0 <= i < n ==> ItemOk(job.header, job.id, job.items[i]))
    && (forall i :: 1 <= i < n ==> Below(job.items[i - 1].planned.name, job.items[i].planned.name))
    && (forall i, j :: 0 <= i < j < n ==> job.items[i].planned.id != job.items[j].planned.id)
    && (forall i, j :: 0 <= i < j < n ==> job.items[i].planned.name != job.items[j].planned.name)
  }

  predicate Seen(job: Job, n: nat, ids: set<ItemId>, names: set<string>)
    requires n <= |job.items|
  {
    && ids == (set i | 0 <= i < n :: job.items[i].planned.id)
    && names == (set i | 0 <= i < n :: job.items[i].planned.name)
  }

  lemma SeenMore(job: Job, n: nat, ids: set<ItemId>, names: set<string>)
    requires n < |job.items| && Seen(job, n, ids, names)
    ensures Seen(job, n + 1, ids + {job.items[n].planned.id}, names + {job.items[n].planned.name})
  {
  }

  lemma CheckedMore(job: Job, n: nat)
    requires n < |job.items|
    ensures Checked(job, n + 1) ==
            (&& Checked(job, n) && ItemOk(job.header, job.id, job.items[n])
             && (n > 0 ==> Below(job.items[n - 1].planned.name, job.items[n].planned.name))
             && (forall i :: 0 <= i < n ==> job.items[i].planned.id != job.items[n].planned.id)
             && (forall i :: 0 <= i < n ==> job.items[i].planned.name != job.items[n].planned.name))
  {
  }

  lemma NotChecked(job: Job, n: nat)
    requires n <= |job.items| && !Checked(job, n)
    ensures !Checked(job, |job.items|)
  {
  }

  lemma NothingChecked(job: Job)
    ensures Checked(job, 0) && Seen(job, 0, {}, {})
  {
  }

  lemma CheckedAll(job: Job)
    ensures JobOk(job) == (&& HeaderOk(job.header) && job.items != [] && Checked(job, |job.items|)
                           && ModelItemsOk(job.header.model, job.items) && job.id == StableJobId(job.header, job.items))
  {
  }

  /** The loop every load and save runs: one pass with seen-sets. */
  method ValidateJob(job: Job) returns (ok: bool)
    ensures ok == JobOk(job)
  {
    hide ItemOk, Below, ConcreteModel, ModelItemsOk, StableJobId, Checked;
    NothingChecked(job);
    CheckedAll(job);
    if job.header.schemaVersion != SCHEMA_VERSION {
      return false;
    }
    ok := ValidateConcreteModel(job.header.model);
    if !ok || |job.items| == 0 {
      return false;
    }
    var seenIds: set<ItemId>, seenNames: set<string> := {}, {};
    var index := 0;
    while index < |job.items|
      invariant 0 <= index <= |job.items| && Checked(job, index)
      invariant Seen(job, index, seenIds, seenNames)
    {
      var item := job.items[index];
      CheckedMore(job, index);
      ok := CheckItem(job, index, seenIds, seenNames);
      if !ok {
        NotChecked(job, index + 1);
        return;
      }
      SeenMore(job, index, seenIds, seenNames);
      seenIds, seenNames := seenIds + {item.planned.id}, seenNames + {item.planned.name};
      index := index + 1;
    }
    ok := ValidateModelItems(job.header.model, job.items);
    return ok && job.id == StableJobId(job.header, job.items);
  }

  method ValidateConcreteModel(model: Model) returns (ok: bool)
    ensures ok == ConcreteModel(model)
  {
    if model == Auto {
      return false;
    }
    return !model.Unlisted?;
  }

  method ValidateModelItems(model: Model, items: seq<Item>) returns (ok: bool)
    ensures ok == ModelItemsOk(model, items)
  {
    if model == OnDevice || model == Local {
      for i := 0 to |items|
        invariant forall k :: 0 <= k < i ==> !items[k].planned.kind.Image?
      {
        if items[i].planned.kind == Image {
          return false;
        }
      }
    }
    ok := true;
  }

  method ValidateItem(job: Job, item: Item) returns (ok: bool)
    ensures ok == ItemOk(job.header, job.id, item)
  {
    var p := item.planned;
    if p.name == "" || p.inputBytes < 0 || p.inputBytes == 0 {
      return false;
    }
    var limit := MAX_TEXT_INPUT_BYTES;
    if p.kind == Image {
      limit := MAX_IMAGE_INPUT_BYTES;
    }
    if p.inputBytes > limit || p.id != ItemId(p.name, p.kind, p.input) || p.resultPath != ResultPath(p.id) {
      return false;
    }
    if item.attempts < 0 {
      return false;
    }
    ok := ValidateState(job, item);
    if !ok {
      return false;
    }
    if item.requestId != NoRequest {
      return item.requestId == RequestId(job.id, p.id, item.attempts);
    }
  }

  method ValidateState(job: Job, item: Item) returns (ok: bool)
    ensures ok == StateOk(job.header, item)
  {
    match item.status
    case Pending =>
      return item.result == None && item.failure == "";
    case Running =>
      if item.attempts < 1 || item.requestId == NoRequest {
        return false;
      }
      return item.result == None && item.failure == "";
    case Succeeded =>
      if item.attempts < 1 || item.requestId == NoRequest || item.result == None || item.failure != "" {
        return false;
      }
      ok := ValidateResult(job, item, item.result.value);
    case _ =>
      if item.attempts < 1 || item.requestId == NoRequest {
        return false;
      }
      return item.result == None && item.failure != "";
  }

  method ValidateResult(job: Job, item: Item, result: ResultRef) returns (ok: bool)
    ensures ok == ResultOk(job.header, item, result)
  {
    if result.requestId != item.requestId || result.path != item.planned.resultPath || result.bytes < 1 {
      return false;
    }
    if result.id != ResultId(result.requestId, result.digest) {
      return false;
    }
    ok := result.modelUsed == job.header.model;
  }

  method CheckItem(job: Job, index: nat, seenIds: set<ItemId>, seenNames: set<string>) returns (ok: bool)
    requires index < |job.items| && Seen(job, index, seenIds, seenNames)
    ensures ok == (&& ItemOk(job.header, job.id, job.items[index])
                   && (index > 0 ==> Below(job.items[index - 1].planned.name, job.items[index].planned.name))
                   && (forall i :: 0 <= i < index ==> job.items[i].planned.id != job.items[index].planned.id)
                   && (forall i :: 0 <= i < index ==> job.items[i].planned.name != job.items[index].planned.name))
  {
    var item := job.items[index];
    if index > 0 && !Below(job.items[index - 1].planned.name, item.planned.name) {
      return false;
    }
    ok := ValidateItem(job, item);
    if !ok {
      return false;
    }
    return item.planned.id !in seenIds && item.planned.name !in seenNames;
  }

  /** The request that the manifest's current attempt of an item stands for. */
  function RequestFor(job: Job, item: Item): ExecutionRequest {
    ExecutionRequest(job.id, item.planned.id, item.attempts, item.requestId, job.header.model, item.planned.kind,
                     item.planned.sourcePath, item.planned.input, job.header.instructionSource, job.header.instruction)
  }

  function NextRequest(job: Job, item: Item): ExecutionRequest {
    var attempt := item.attempts + 1;
    ExecutionRequest(job.id, item.planned.id, attempt, RequestId(job.id, item.planned.id, attempt), job.header.model,
                     item.planned.kind, item.planned.sourcePath, item.planned.input,
                     job.header.instructionSource, job.header.instruction)
  }

  function RefFor(request: ExecutionRequest, path: ResultPath, content: string): ResultRef {
    ResultRef(ResultId(request.requestId, Digest(content)), request.requestId, path, Digest(content),
              |content|, request.model)
  }

  /** What a stored envelope must look like to be an item's committed result: the answer to the item's
      own request, and a reference that follows from its content. */
  predicate EnvelopeOk(job: Job, item: Item, e: Envelope) {
    && e.schemaVersion == 1
    && (item.status.Running? || item.status.Uncertain? || item.status.Succeeded?)
    && e.request == RequestFor(job, item)
    && 1 <= |e.content| <= 16777216
    && e.result.requestId == item.requestId && e.result.path == item.planned.resultPath
    && e.result.digest == Digest(e.content) && e.result.id == ResultId(item.requestId, Digest(e.content))
    && e.result.bytes == |e.content| && e.result.modelUsed == job.header.model
    && (item.status.Succeeded? ==> item.result == Some(e.result))
  }

  method ValidateEnvelope(job: Job, item: Item, e: Envelope) returns (ok: bool)
    ensures ok == EnvelopeOk(job, item, e)
  {
    if e.schemaVersion != RESULT_SCHEMA_VERSION {
      return false;
    }
    if item.status != Running && item.status != Uncertain && item.status != Succeeded {
      return false;
    }
    var wantRequest := RequestFor(job, item);
    if e.request != wantRequest || |e.content| == 0 || |e.content| > MAX_RESULT_CONTENT_BYTES {
      return false;
    }
    var wantRef := RefFor(wantRequest, item.planned.resultPath, e.content).(modelUsed := job.header.model);
    if e.result != wantRef {
      return false;
    }
    ok := item.status != Succeeded || item.result == Some(e.result);
  }

  /** What a request says is what the manifest says of its item. */
  lemma RequestCarries(job: Job, item: Item)
    ensures var r := RequestFor(job, item);
            && r.jobId == job.id && r.model == job.header.model
            && r.instructionSource == job.header.instructionSource && r.instruction == job.header.instruction
            && r.itemId == item.planned.id && r.kind == item.planned.kind
            && r.sourcePath == item.planned.sourcePath && r.input == item.planned.input
            && r.attempt == item.attempts && r.requestId == item.requestId
    ensures var n, attempt := NextRequest(job, item), item.attempts + 1;
            n == RequestFor(job, item.(attempts := attempt, requestId := RequestId(job.id, item.planned.id, attempt)))
  {
  }

  /** A freshly planned job: nothing attempted yet. */
  predicate PlannedJob(job: Job) {
    && JobOk(job)
    && forall i :: 0 <= i < |job.items| ==>
         job.items[i].status.Pending? && job.items[i].attempts == 0 && job.items[i].requestId == NoRequest
  }
}
