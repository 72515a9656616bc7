/** Optimal string alignment distance: the recursive definition, the edit scripts it measures, the
    table computed in three rotating rows, and the command suggested by it. */
module EditDistance {
  import opened Options

  type Rune = int

  function Min(a: int, b: int): int { if a <= b then a else b }

  /** The last two runes of each are one another's swapped. */
  predicate Swapped(a: seq<Rune>, b: seq<Rune>) {
    |a| > 1 && |b| > 1 && a[|a| - 1] == b[|b| - 2] && a[|a| - 2] == b[|b| - 1]
  }

  function Distance(a: seq<Rune>, b: seq<Rune>): (d: nat)
    decreases |a| + |b|
  {
    if a == [] then |b|
    else if b == [] then |a|
    else
      var fa, fb := a[..|a| - 1], b[..|b| - 1];
      var cost := if a[|a| - 1] == b[|b| - 1] then 0 else 1;
      var d := Min(Min(Distance(fa, b) + 1, Distance(a, fb) + 1), Distance(fa, fb) + cost);
      if Swapped(a, b) then Min(d, Distance(a[..|a| - 2], b[..|b| - 2]) + 1) else d
  }

  // ---- what the distance measures ----

  /** One edit: it reads runes of the first string and writes runes of the second. */
  datatype Edit =
    | Keep(r: Rune) | Insert(r: Rune) | Delete(r: Rune) | Substitute(r: Rune, s: Rune) | Swap(r: Rune, s: Rune)

  function Reads(e: Edit): seq<Rune> {
    match e
    case Keep(r) => [r]
    case Insert(_) => []
    case Delete(r) => [r]
    case Substitute(r, _) => [r]
    case Swap(r, s) => [r, s]
  }

  function Writes(e: Edit): seq<Rune> {
    match e
    case Keep(r) => [r]
    case Insert(r) => [r]
    case Delete(_) => []
    case Substitute(_, s) => [s]
    case Swap(r, s) => [s, r]
  }

  function Cost(script: seq<Edit>): nat {
    if script == [] then 0 else Cost(script[..|script| - 1]) + if script[|script| - 1].Keep? then 0 else 1
  }

  function Source(script: seq<Edit>): seq<Rune> {
    if script == [] then [] else Source(script[..|script| - 1]) + Reads(script[|script| - 1])
  }

  function Target(script: seq<Edit>): seq<Rune> {
    if script == [] then [] else Target(script[..|script| - 1]) + Writes(script[|script| - 1])
  }

  lemma DropLast(a: seq<Rune>, r: Rune)
    ensures (a + [r])[..|a + [r]| - 1] == a
  {
  }

  lemma OneSwapped(a: seq<Rune>, b: seq<Rune>, r: Rune, s: Rune)
    ensures Distance(a + [r, s], b + [s, r]) <= Distance(a, b) + 1
  {
    var x, y := a + [r, s], b + [s, r];
    assert x[..|x| - 2] == a && y[..|y| - 2] == b;
    assert Swapped(x, y);
  }

  /** Each edit adds at most its cost to the distance. */
  lemma OneMore(a: seq<Rune>, b: seq<Rune>, e: Edit)
    ensures Distance(a + Reads(e), b + Writes(e)) <= Distance(a, b) + if e.Keep? then 0 else 1
  {
    match e
    case Keep(r) =>
      DropLast(a, r);
      DropLast(b, r);
    case Insert(r) =>
      DropLast(b, r);
      assert a + [] == a;
    case Delete(r) =>
      DropLast(a, r);
      assert b + [] == b;
    case Substitute(r, s) =>
      DropLast(a, r);
      DropLast(b, s);
    case Swap(r, s) => OneSwapped(a, b, r, s);
  }

  /** No script is cheaper than the distance. */
  lemma {:induction false} NoCheaperScript(script: seq<Edit>)
    ensures Distance(Source(script), Target(script)) <= Cost(script)
    decreases |script|
  {
    if script != [] {
      var front := script[..|script| - 1];
      NoCheaperScript(front);
      OneMore(Source(front), Target(front), script[|script| - 1]);
    }
  }

  /** A script turns one string into another at some cost. */
  predicate Turns(script: seq<Edit>, a: seq<Rune>, b: seq<Rune>, cost: nat) {
    Source(script) == a && Target(script) == b && Cost(script) == cost
  }

  lemma TurnsMore(script: seq<Edit>, a: seq<Rune>, b: seq<Rune>, cost: nat, e: Edit)
    requires Turns(script, a, b, cost)
    ensures Turns(script + [e], a + Reads(e), b + Writes(e), cost + if e.Keep? then 0 else 1)
  {
    assert (script + [e])[..|script|] == script;
  }

  /** The last edit of a cheapest script: what is left of both strings before it. */
  function LastEdit(a: seq<Rune>, b: seq<Rune>): (e: Edit)
    requires a != [] || b != []
  {
    if a == [] || (b != [] && Distance(a, b) == Distance(a, b[..|b| - 1]) + 1) then Insert(b[|b| - 1])
    else if b == [] || Distance(a, b) == Distance(a[..|a| - 1], b) + 1 then Delete(a[|a| - 1])
    else if a[|a| - 1] == b[|b| - 1] && Distance(a, b) == Distance(a[..|a| - 1], b[..|b| - 1]) then Keep(a[|a| - 1])
    else if Distance(a, b) == Distance(a[..|a| - 1], b[..|b| - 1]) + 1 then Substitute(a[|a| - 1], b[|b| - 1])
    else Swap(b[|b| - 1], a[|a| - 1])
  }

  /** The edit ends both strings. */
  predicate Ends(a: seq<Rune>, b: seq<Rune>, e: Edit) {
    && |Reads(e)| <= |a| && a[..|a| - |Reads(e)|] + Reads(e) == a
    && |Writes(e)| <= |b| && b[..|b| - |Writes(e)|] + Writes(e) == b
  }

  lemma LastEditEnds(a: seq<Rune>, b: seq<Rune>)
    requires a != [] || b != []
    ensures Ends(a, b, LastEdit(a, b))
  {
    if LastEdit(a, b).Swap? {
      LastIsSwap(a, b);
    }
    hide Distance;
  }

  lemma LastIsSwap(a: seq<Rune>, b: seq<Rune>)
    requires (a != [] || b != []) && LastEdit(a, b).Swap?
    ensures Swapped(a, b)
  {
  }

  lemma LastEditPays(a: seq<Rune>, b: seq<Rune>)
    requires (a != [] || b != []) && Ends(a, b, LastEdit(a, b))
    ensures var e := LastEdit(a, b);
            Distance(a, b) ==
            Distance(a[..|a| - |Reads(e)|], b[..|b| - |Writes(e)|]) + if e.Keep? then 0 else 1
  {
    var e := LastEdit(a, b);
    match e
    case Insert(_) => InsertPays(a, b);
    case Delete(_) => DeletePays(a, b);
    case Keep(_) => KeepPays(a, b);
    case Substitute(_, _) => SubstitutePays(a, b);
    case Swap(_, _) => SwapPays(a, b);
  }

  lemma KeepPays(a: seq<Rune>, b: seq<Rune>)
    requires a != [] && b != [] && LastEdit(a, b).Keep?
    ensures Distance(a, b) == Distance(a[..|a| - 1], b[..|b| - 1])
  {
  }

  lemma SubstitutePays(a: seq<Rune>, b: seq<Rune>)
    requires a != [] && b != [] && LastEdit(a, b).Substitute?
    ensures Distance(a, b) == Distance(a[..|a| - 1], b[..|b| - 1]) + 1
  {
  }

  lemma SwapPays(a: seq<Rune>, b: seq<Rune>)
    requires |a| > 1 && |b| > 1 && LastEdit(a, b).Swap?
    ensures Distance(a, b) == Distance(a[..|a| - 2], b[..|b| - 2]) + 1
  {
    assert Swapped(a, b);
  }

  lemma InsertPays(a: seq<Rune>, b: seq<Rune>)
    requires b != [] && LastEdit(a, b) == Insert(b[|b| - 1])
    ensures Distance(a, b) == Distance(a[..|a|], b[..|b| - 1]) + 1
  {
    assert a[..|a|] == a;
  }

  lemma DeletePays(a: seq<Rune>, b: seq<Rune>)
    requires a != [] && LastEdit(a, b) == Delete(a[|a| - 1])
    ensures Distance(a, b) == Distance(a[..|a| - 1], b[..|b|]) + 1
  {
    assert b[..|b|] == b;
  }

  /** Some script costs exactly the distance. */
  lemma {:induction false} CheapestScript(a: seq<Rune>, b: seq<Rune>) returns (script: seq<Edit>)
    ensures Turns(script, a, b, Distance(a, b))
    decreases |a| + |b|
  {
    if a == [] && b == [] {
      script := [];
    } else {
      var e := LastEdit(a, b);
      LastEditEnds(a, b);
      LastEditPays(a, b);
      var fa, fb := a[..|a| - |Reads(e)|], b[..|b| - |Writes(e)|];
      script := CheapestScript(fa, fb);
      TurnsMore(script, fa, fb, Distance(fa, fb), e);
      script := script + [e];
    }
  }

  function Mirror(e: Edit): Edit {
    match e
    case Keep(r) => Keep(r)
    case Insert(r) => Delete(r)
    case Delete(r) => Insert(r)
    case Substitute(r, s) => Substitute(s, r)
    case Swap(r, s) => Swap(s, r)
  }

  lemma {:induction false} MirroredScript(script: seq<Edit>) returns (back: seq<Edit>)
    ensures Turns(back, Target(script), Source(script), Cost(script))
    decreases |script|
  {
    if script == [] {
      back := [];
    } else {
      var front, last := script[..|script| - 1], script[|script| - 1];
      back := MirroredScript(front);
      TurnsMore(back, Target(front), Source(front), Cost(front), Mirror(last));
      back := back + [Mirror(last)];
    }
  }

  lemma NotFarther(a: seq<Rune>, b: seq<Rune>)
    ensures Distance(b, a) <= Distance(a, b)
  {
    var script := CheapestScript(a, b);
    var back := MirroredScript(script);
    NoCheaperScript(back);
  }

  lemma {:induction false} FreeScript(script: seq<Edit>)
    requires Cost(script) == 0
    ensures Source(script) == Target(script)
    decreases |script|
  {
    if script != [] {
      FreeScript(script[..|script| - 1]);
    }
  }

  lemma {:induction false} SameIsFree(a: seq<Rune>)
    ensures Distance(a, a) == 0
    decreases |a|
  {
    if a != [] {
      SameIsFree(a[..|a| - 1]);
    }
  }

  lemma {:induction false} AtMostLonger(a: seq<Rune>, b: seq<Rune>)
    ensures Distance(a, b) <= if |a| >= |b| then |a| else |b|
    decreases |a|
  {
    if a != [] && b != [] {
      AtMostLonger(a[..|a| - 1], b[..|b| - 1]);
    }
  }

  /** The distance is symmetric, zero exactly between equal strings, and at most the longer length. */
  lemma {:induction false} DistanceLaws(a: seq<Rune>, b: seq<Rune>)
    ensures Distance(a, b) == Distance(b, a)
    ensures Distance(a, b) == 0 <==> a == b
    ensures Distance(a, b) <= if |a| >= |b| then |a| else |b|
  {
    NotFarther(a, b);
    NotFarther(b, a);
    SameIsFree(a);
    AtMostLonger(a, b);
    var script := CheapestScript(a, b);
    if Distance(a, b) == 0 {
      FreeScript(script);
    }
  }

  // ---- the table in three rows ----

  /** The distance between prefixes. */
  function Cell(left: seq<Rune>, right: seq<Rune>, i: nat, j: nat): nat
    requires i <= |left| && j <= |right|
  {
    Distance(left[..i], right[..j])
  }

  lemma CellStep(left: seq<Rune>, right: seq<Rune>, i: nat, j: nat)
    requires 1 <= i <= |left| && 1 <= j <= |right|
    ensures var cost := if left[i - 1] == right[j - 1] then 0 else 1;
            var d := Min(Min(Cell(left, right, i - 1, j) + 1, Cell(left, right, i, j - 1) + 1),
                         Cell(left, right, i - 1, j - 1) + cost);
            Cell(left, right, i, j) ==
            if i > 1 && j > 1 && left[i - 1] == right[j - 2] && left[i - 2] == right[j - 1]
            then Min(d, Cell(left, right, i - 2, j - 2) + 1) else d
  {
    var a, b := left[..i], right[..j];
    assert a[..i - 1] == left[..i - 1] && b[..j - 1] == right[..j - 1];
    if i > 1 && j > 1 {
      assert a[..i - 2] == left[..i - 2] && b[..j - 2] == right[..j - 2];
    }
  }

  /** A row holds the distances of one prefix of the left string, up to column n. */
  predicate RowIs(row: seq<int>, left: seq<Rune>, right: seq<Rune>, i: nat, n: nat)
    requires i <= |left|
  {
    n <= |right| + 1 && |row| == |right| + 1 && forall j :: 0 <= j < n ==> row[j] == Cell(left, right, i, j)
  }

  method ComputeDistance(left: seq<Rune>, right: seq<Rune>) returns (d: int)
    ensures d == Distance(left, right)
  {
    var beforePrevious := new int[|right| + 1](_ => 0);
    var previous := new int[|right| + 1](_ => 0);
    var current := new int[|right| + 1](_ => 0);
    var j := 0;
    while j < previous.Length
      invariant 0 <= j <= previous.Length && forall k :: 0 <= k < j ==> previous[k] == k
    {
      previous[j] := j;
      j := j + 1;
    }
    var i := 1;
    while i <= |left|
      invariant 1 <= i <= |left| + 1
      invariant fresh(beforePrevious) && fresh(previous) && fresh(current)
      invariant beforePrevious != previous && previous != current && current != beforePrevious
      invariant beforePrevious.Length == previous.Length == current.Length == |right| + 1
      invariant RowIs(previous[..], left, right, i - 1, |right| + 1)
      invariant i > 1 ==> RowIs(beforePrevious[..], left, right, i - 2, |right| + 1)
    {
      FillRow(left, right, i, beforePrevious, previous, current);
      beforePrevious, previous, current := previous, current, beforePrevious;
      i := i + 1;
    }
    assert left[..|left|] == left && right[..|right|] == right;
    d := previous[|right|];
  }

  /** One row from the two before it. */
  method FillRow(left: seq<Rune>, right: seq<Rune>, i: nat, beforePrevious: array<int>, previous: array<int>,
                 current: array<int>)
    requires 1 <= i <= |left| && current != previous && current != beforePrevious
    requires beforePrevious.Length == previous.Length == current.Length == |right| + 1
    requires RowIs(previous[..], left, right, i - 1, |right| + 1)
    requires i > 1 ==> RowIs(beforePrevious[..], left, right, i - 2, |right| + 1)
    modifies current
    ensures RowIs(current[..], left, right, i, |right| + 1)
  {
    hide Cell;
    current[0] := i;
    RowStarts(current[..], left, right, i);
    var j := 1;
    while j <= |right|
      invariant 1 <= j <= |right| + 1
      invariant RowIs(current[..], left, right, i, j)
    {
      FillCell(left, right, i, j, beforePrevious, previous, current);
      j := j + 1;
    }
  }

  lemma RowStarts(row: seq<int>, left: seq<Rune>, right: seq<Rune>, i: nat)
    requires i <= |left| && |row| == |right| + 1 && row[0] == i
    ensures RowIs(row, left, right, i, 1)
  {
  }

  /** One cell from the three or four around it. */
  method FillCell(left: seq<Rune>, right: seq<Rune>, i: nat, j: nat, beforePrevious: array<int>, previous: array<int>,
                  current: array<int>)
    requires 1 <= i <= |left| && 1 <= j <= |right| && current != previous && current != beforePrevious
    requires beforePrevious.Length == previous.Length == current.Length == |right| + 1
    requires RowIs(previous[..], left, right, i - 1, |right| + 1) && RowIs(current[..], left, right, i, j)
    requires i > 1 ==> RowIs(beforePrevious[..], left, right, i - 2, |right| + 1)
    modifies current
    ensures RowIs(current[..], left, right, i, j + 1)
  {
    hide Cell;
    var cost := 1;
    if left[i - 1] == right[j - 1] {
      cost := 0;
    }
    CellStep(left, right, i, j);
    assert previous[..][j] == previous[j] && previous[..][j - 1] == previous[j - 1];
    assert current[..][j - 1] == current[j - 1];
    current[j] := Min(Min(previous[j] + 1, current[j - 1] + 1), previous[j - 1] + cost);
    if i > 1 && j > 1 && left[i - 1] == right[j - 2] && left[i - 2] == right[j - 1] {
      assert beforePrevious[..][j - 2] == beforePrevious[j - 2];
      current[j] := Min(current[j], beforePrevious[j - 2] + 1);
    }
  }

  // ---- the suggestion ----

  function Limit(name: seq<Rune>): int { if |name| >= 7 then 2 else 1 }

  predicate Close(token: seq<Rune>, name: seq<Rune>, lower: seq<Rune> -> seq<Rune>) {
    Distance(lower(token), lower(name)) <= Limit(name)
  }

  /** The i-th name is close, no close name is nearer, and none before it is as near. */
  predicate FirstNearest(token: seq<Rune>, names: seq<seq<Rune>>, i: nat, lower: seq<Rune> -> seq<Rune>) {
    && i < |names| && Close(token, names[i], lower)
    && forall j :: 0 <= j < |names| && Close(token, names[j], lower) ==>
         var here, there := Distance(lower(token), lower(names[i])), Distance(lower(token), lower(names[j]));
         if j < i then here < there else here <= there
  }

  /** The first of the nearest names within their own limits, or the empty name when none is. */
  method NearestCommand(token: seq<Rune>, names: seq<seq<Rune>>, lower: seq<Rune> -> seq<Rune>)
    returns (best: seq<Rune>)
    ensures (exists i: nat :: FirstNearest(token, names, i, lower) && best == names[i])
            || (best == [] && forall j :: 0 <= j < |names| ==> !Close(token, names[j], lower))
  {
    hide Distance;
    var folded := lower(token);
    var bestDistance := 3;
    best := [];
    ghost var at: Option<nat> := None;
    var k := 0;
    while k < |names|
      invariant 0 <= k <= |names| && Best(token, names[..k], lower, at)
      invariant Holds(folded, names, lower, at, best, bestDistance) && bestDistance <= 3
    {
      var limit := 1;
      if |names[k]| >= 7 {
        limit := 2;
      }
      var distance := ComputeDistance(folded, lower(names[k]));
      assert names[..k + 1] == names[..k] + [names[k]];
      if distance <= limit && distance < bestDistance {
        NearerName(token, names[..k], names[k], lower, at);
        best, bestDistance := names[k], distance;
        at := Some(k);
      } else {
        NoNearer(token, names[..k], names[k], lower, at);
      }
      k := k + 1;
    }
    assert names[..k] == names;
    assert at.Some? ==> FirstNearest(token, names, at.value, lower);
  }

  /** What the variables hold of the best name found. */
  predicate Holds(folded: seq<Rune>, names: seq<seq<Rune>>, lower: seq<Rune> -> seq<Rune>, at: Option<nat>,
                  best: seq<Rune>, bestDistance: int) {
    if at.None? then best == [] && bestDistance == 3
    else at.value < |names| && best == names[at.value] && bestDistance == Distance(folded, lower(best))
  }

  predicate NoneClose(token: seq<Rune>, names: seq<seq<Rune>>, lower: seq<Rune> -> seq<Rune>) {
    forall j :: 0 <= j < |names| ==> !Close(token, names[j], lower)
  }

  /** What the names so far come to. */
  predicate Best(token: seq<Rune>, names: seq<seq<Rune>>, lower: seq<Rune> -> seq<Rune>, at: Option<nat>) {
    if at.None? then NoneClose(token, names, lower) else FirstNearest(token, names, at.value, lower)
  }

  lemma NearerName(token: seq<Rune>, names: seq<seq<Rune>>, name: seq<Rune>, lower: seq<Rune> -> seq<Rune>,
                   at: Option<nat>)
    requires Best(token, names, lower, at) && Close(token, name, lower)
    requires at.Some? ==> Distance(lower(token), lower(name)) < Distance(lower(token), lower(names[at.value]))
    ensures FirstNearest(token, names + [name], |names|, lower)
  {
  }

  lemma NoNearer(token: seq<Rune>, names: seq<seq<Rune>>, name: seq<Rune>, lower: seq<Rune> -> seq<Rune>,
                 at: Option<nat>)
    requires Best(token, names, lower, at)
    requires at.None? ==> !Close(token, name, lower)
    requires at.Some? && Close(token, name, lower) ==>
               Distance(lower(token), lower(names[at.value])) <= Distance(lower(token), lower(name))
    ensures Best(token, names + [name], lower, at)
  {
    var more := names + [name];
    assert forall j :: 0 <= j < |names| ==> more[j] == names[j];
  }
}
