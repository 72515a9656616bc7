/** The order of the events of one request, by a table of which kind may follow which, and the text
    that the closing events repeat. */
module StreamOrder {
  import opened Bytes
  import opened NativeProtocol
  import opened Options
  import opened SseStream
  import opened StreamRequest

  /** A Responses stream nests a response, its one item and its one part; a chat stream is a role,
      contents and a stop. */
  const RESPONSES_ORDER: set<(FrameKind, FrameKind)> := {
    (Created, InProgress), (InProgress, ItemAdded), (ItemAdded, PartAdded), (PartAdded, TextDelta),
    (TextDelta, TextDelta), (TextDelta, TextDone), (TextDone, PartDone), (PartDone, ItemDone),
    (ItemDone, FrameKind.Completed)
  }

  const CHAT_ORDER: set<(FrameKind, FrameKind)> := {
    (RoleChunk, ContentChunk), (ContentChunk, ContentChunk), (ContentChunk, StopChunk), (StopChunk, DoneMark)
  }

  predicate MayFollow(responses: bool, p: FrameKind, q: FrameKind) {
    if responses then
      (p, q) in RESPONSES_ORDER
      || (q == ResponseFailed && p in {Created, InProgress, ItemAdded, PartAdded, TextDelta})
    else
      (p, q) in CHAT_ORDER || (q == ErrorChunk && p in {RoleChunk, ContentChunk})
  }

  predicate InOrder(responses: bool, tried: seq<Part>) {
    && (tried != [] ==> tried[0].kind == if responses then Created else RoleChunk)
    && forall i :: 0 < i < |tried| ==> MayFollow(responses, tried[i - 1].kind, tried[i].kind)
  }

  /** The texts of the delta parts, put together. */
  function DeltaText(parts: seq<Part>): ByteString {
    if parts == [] then []
    else
      var last := parts[|parts| - 1];
      DeltaText(parts[..|parts| - 1]) + if last.kind == TextDelta || last.kind == ContentChunk then last.text else []
  }

  /** What every closing event of a Responses stream repeats. */
  predicate RepeatsText(tried: seq<Part>) {
    forall i :: 0 <= i < |tried| && tried[i].kind in {TextDone, PartDone, ItemDone, FrameKind.Completed} ==>
      tried[i].text == DeltaText(tried)
  }

  lemma Shorter(responses: bool, parts: seq<Part>, k: nat)
    requires InOrder(responses, parts) && k <= |parts|
    ensures InOrder(responses, parts[..k])
  {
    hide MayFollow;
  }

  lemma OneMorePart(responses: bool, parts: seq<Part>, part: Part)
    requires InOrder(responses, parts)
    requires if parts == [] then part.kind == (if responses then Created else RoleChunk)
             else MayFollow(responses, parts[|parts| - 1].kind, part.kind)
    ensures InOrder(responses, parts + [part])
  {
    hide MayFollow;
  }

  lemma OpeningOrdered(responses: bool)
    ensures InOrder(responses, Opening(responses)) && Opening(responses) != []
    ensures Opening(responses)[|Opening(responses)| - 1].kind == if responses then PartAdded else RoleChunk
    ensures forall i :: 0 <= i < |Opening(responses)| ==>
              Opening(responses)[i].kind in {Created, InProgress, ItemAdded, PartAdded, RoleChunk}
  {
  }

  /** The script of some deltas is in order, ends with the last, and spells their text. */
  lemma {:induction false} ScriptOrdered(responses: bool, deltas: seq<ByteString>)
    ensures InOrder(responses, Script(responses, deltas))
    ensures deltas != [] ==>
              var script := Script(responses, deltas);
              script != [] && script[|script| - 1].kind == if responses then TextDelta else ContentChunk
    decreases |deltas|
  {
    hide InOrder, MayFollow, Opening;
    if |deltas| == 1 {
      OpeningOrdered(responses);
      assert deltas == [] + [deltas[0]];
      ScriptSnoc(responses, [], deltas[0]);
      FirstDelta(responses, deltas[0]);
    } else if deltas != [] {
      var front, last := deltas[..|deltas| - 1], deltas[|deltas| - 1];
      assert deltas == front + [last];
      ScriptOrdered(responses, front);
      ScriptSnoc(responses, front, last);
      NextDelta(responses, Script(responses, front), last);
      assert Script(responses, front) + [] == Script(responses, front);
    } else {
      NothingOrdered(responses);
    }
  }

  lemma NothingOrdered(responses: bool)
    ensures InOrder(responses, [])
  {
  }

  lemma FirstDelta(responses: bool, delta: ByteString)
    ensures InOrder(responses, [] + Opening(responses) + [DeltaPart(responses, delta)])
  {
    hide InOrder, Opening;
    OpeningOrdered(responses);
    assert [] + Opening(responses) == Opening(responses);
    OneMorePart(responses, Opening(responses), DeltaPart(responses, delta));
  }

  lemma NextDelta(responses: bool, script: seq<Part>, delta: ByteString)
    requires InOrder(responses, script) && script != []
    requires script[|script| - 1].kind == if responses then TextDelta else ContentChunk
    ensures InOrder(responses, script + [DeltaPart(responses, delta)])
  {
    hide InOrder;
    OneMorePart(responses, script, DeltaPart(responses, delta));
  }

  /** With all of the closing behind it. */
  lemma ClosingOrdered(responses: bool, script: seq<Part>, text: ByteString)
    requires InOrder(responses, script) && script != []
    requires script[|script| - 1].kind == if responses then TextDelta else ContentChunk
    ensures InOrder(responses, script + Closing(responses, text))
  {
    hide InOrder;
    var c := Closing(responses, text);
    OneMorePart(responses, script, c[0]);
    OneMorePart(responses, script + [c[0]], c[1]);
    if responses {
      OneMorePart(responses, script + [c[0]] + [c[1]], c[2]);
      OneMorePart(responses, script + [c[0]] + [c[1]] + [c[2]], c[3]);
      assert script + [c[0]] + [c[1]] + [c[2]] + [c[3]] == script + c;
    } else {
      assert script + [c[0]] + [c[1]] == script + c;
    }
  }

  /** A failure may follow any part of a script. */
  lemma FailureOrdered(responses: bool, deltas: seq<ByteString>, k: nat)
    requires 1 <= k <= |Script(responses, deltas)|
    ensures InOrder(responses, Script(responses, deltas)[..k] + [FailurePart(responses)])
  {
    hide InOrder, Opening;
    var script := Script(responses, deltas);
    ScriptOrdered(responses, deltas);
    Shorter(responses, script, k);
    ScriptKinds(responses, deltas, k - 1);
    OneMorePart(responses, script[..k], FailurePart(responses));
  }

  lemma ScriptKinds(responses: bool, deltas: seq<ByteString>, i: nat)
    requires i < |Script(responses, deltas)|
    ensures Script(responses, deltas)[i].kind in
            (if responses then {Created, InProgress, ItemAdded, PartAdded, TextDelta} else {RoleChunk, ContentChunk})
    ensures Script(responses, deltas)[i].kind !in {TextDone, PartDone, ItemDone, FrameKind.Completed}
  {
  }

  // ---- the text ----

  lemma DeltaTextSnoc(parts: seq<Part>, part: Part)
    ensures DeltaText(parts + [part]) ==
            DeltaText(parts) + if part.kind == TextDelta || part.kind == ContentChunk then part.text else []
  {
    assert (parts + [part])[..|parts|] == parts;
  }

  lemma {:induction false} NoDeltas(parts: seq<Part>, more: seq<Part>)
    requires forall i :: 0 <= i < |more| ==> more[i].kind != TextDelta && more[i].kind != ContentChunk
    ensures DeltaText(parts + more) == DeltaText(parts)
    decreases |more|
  {
    if more == [] {
      assert parts + more == parts;
    } else {
      var front, last := more[..|more| - 1], more[|more| - 1];
      NoDeltas(parts, front);
      assert parts + more == (parts + front) + [last];
      DeltaTextSnoc(parts + front, last);
    }
  }

  lemma NoText(responses: bool)
    ensures DeltaText(Script(responses, [])) == Concat([])
  {
  }

  lemma {:induction false} ScriptText(responses: bool, deltas: seq<ByteString>)
    ensures DeltaText(Script(responses, deltas)) == Concat(deltas)
    decreases |deltas|
  {
    hide Opening, Concat, DeltaText, Script, InOrder;
    if deltas == [] {
      NoText(responses);
    } else {
      var front, last := deltas[..|deltas| - 1], deltas[|deltas| - 1];
      assert deltas == front + [last];
      ScriptText(responses, front);
      ScriptSnoc(responses, front, last);
      ConcatSnoc(front, last);
      OpeningOrdered(responses);
      var opening := if front == [] then Opening(responses) else [];
      NoDeltas(Script(responses, front), opening);
      DeltaTextSnoc(Script(responses, front) + opening, DeltaPart(responses, last));
    }
  }

  // ---- every request ----

  /** A request closed, or cut off while closing. */
  lemma ClosingInOrder(responses: bool, deltas: seq<ByteString>, k: nat)
    requires deltas != [] && k <= |Closing(responses, [])|
    ensures var tried := Script(responses, deltas) + Closing(responses, Concat(deltas))[..k];
            InOrder(responses, tried) && RepeatsText(tried)
  {
    hide InOrder, Concat, MayFollow, DeltaText, Script;
    var script, closing := Script(responses, deltas), Closing(responses, Concat(deltas));
    ScriptOrdered(responses, deltas);
    ClosingOrdered(responses, script, Concat(deltas));
    Shorter(responses, script + closing, |script| + k);
    assert (script + closing)[..|script| + k] == script + closing[..k];
    ScriptText(responses, deltas);
    NoDeltas(script, closing[..k]);
    ClosingRepeats(responses, deltas, k);
  }

  lemma ClosingRepeats(responses: bool, deltas: seq<ByteString>, k: nat)
    requires k <= |Closing(responses, [])|
    requires DeltaText(Script(responses, deltas) + Closing(responses, Concat(deltas))[..k]) == Concat(deltas)
    ensures RepeatsText(Script(responses, deltas) + Closing(responses, Concat(deltas))[..k])
  {
    hide DeltaText, Concat, Script;
    var script, tried := Script(responses, deltas), Script(responses, deltas) + Closing(responses, Concat(deltas))[..k];
    forall i | 0 <= i < |tried| && tried[i].kind in {TextDone, PartDone, ItemDone, FrameKind.Completed}
      ensures tried[i].text == Concat(deltas)
    {
      if i < |script| {
        ScriptKinds(responses, deltas, i);
      }
    }
  }

  lemma FailureRepeats(responses: bool, deltas: seq<ByteString>, k: nat)
    requires k <= |Script(responses, deltas)|
    ensures RepeatsText(Script(responses, deltas)[..k] + [FailurePart(responses)])
  {
    hide DeltaText, Script;
    var script := Script(responses, deltas);
    var tried := script[..k] + [FailurePart(responses)];
    forall i | 0 <= i < |tried|
      ensures tried[i].kind !in {TextDone, PartDone, ItemDone, FrameKind.Completed}
    {
      if i < k {
        ScriptKinds(responses, deltas, i);
      }
    }
  }

  /** However a request ends, its events come in the order of its interface, from the first on and none
      left out between, and every closing event repeats the text of the deltas before it. */
  lemma EventsInOrder(responses: bool, tried: seq<Part>, landed: seq<bool>, refused: bool, intact: bool,
                      lines: seq<Line>, deltas: seq<ByteString>)
    requires Ended(responses, tried, landed, refused, intact, deltas) && Told(responses, tried, landed, lines, deltas)
    ensures InOrder(responses, tried) && RepeatsText(tried)
  {
    hide InOrder, RepeatsText, Script, Told, CutShort, CutClosing, Failed;
    if tried == [] {
      NothingOrdered(responses);
      NothingRepeats();
    } else if Closed(responses, tried, landed, deltas) {
      var whole := Closing(responses, Concat(deltas));
      assert whole[..|Closing(responses, [])|] == whole;
      ClosesAfterDeltas(responses, tried, landed, lines, deltas, |Closing(responses, [])|);
      ClosingInOrder(responses, deltas, |Closing(responses, [])|);
    } else if CutClosing(responses, tried, landed, deltas) {
      var k := CutAt(responses, tried, landed, deltas);
      ClosesAfterDeltas(responses, tried, landed, lines, deltas, k);
      ClosingInOrder(responses, deltas, k);
    } else {
      var k := FailedAt(responses, tried, landed, deltas);
      FailureOrdered(responses, deltas, k);
      FailureRepeats(responses, deltas, k);
    }
  }

  lemma NothingRepeats()
    ensures RepeatsText([])
  {
  }

  lemma CutAt(responses: bool, tried: seq<Part>, landed: seq<bool>, deltas: seq<ByteString>) returns (k: nat)
    requires CutClosing(responses, tried, landed, deltas)
    ensures 1 <= k <= |Closing(responses, [])|
    ensures tried == Script(responses, deltas) + Closing(responses, Concat(deltas))[..k]
  {
    k :| 1 <= k <= |Closing(responses, [])|
         && tried == Script(responses, deltas) + Closing(responses, Concat(deltas))[..k];
  }

  lemma FailedAt(responses: bool, tried: seq<Part>, landed: seq<bool>, deltas: seq<ByteString>) returns (k: nat)
    requires Failed(responses, tried, landed, deltas) || CutShort(responses, tried, landed, deltas)
    ensures 1 <= k <= |Script(responses, deltas)|
    ensures tried == Script(responses, deltas)[..k] + [FailurePart(responses)]
  {
    var script := Script(responses, deltas);
    if Failed(responses, tried, landed, deltas) {
      k := |script|;
      assert script[..k] == script;
    } else {
      k :| 1 <= k <= |script| && tried[..|tried| - 1] == script[..k];
      assert tried == tried[..|tried| - 1] + [tried[|tried| - 1]];
    }
  }

  /** A closing comes only after deltas: the text completed is not empty. */
  lemma ClosesAfterDeltas(responses: bool, tried: seq<Part>, landed: seq<bool>, lines: seq<Line>,
                          deltas: seq<ByteString>, k: nat)
    requires Told(responses, tried, landed, lines, deltas) && 1 <= k <= |Closing(responses, [])|
    requires tried == Script(responses, deltas) + Closing(responses, Concat(deltas))[..k]
    ensures deltas != []
  {
    var i := |Script(responses, deltas)|;
    assert tried[i] == Closing(responses, Concat(deltas))[0];
    assert IsClosing(tried[i]);
    assert AnyClosing(tried);
    StreamTheorem(lines);
  }
}
