/** The chat store's transactions: a turn appended whole or not at all, a conversation created
    with its first turn, deletion, and the repair of repeated sequence numbers. */
module ChatStore {
  import opened ChatTable
  import opened Options

  // ---- what one insertion keeps ----

  lemma InsertContiguous(t: Table, conv: ConvId, id: int, row: Row)
    requires id !in t && row.conv == conv && Contiguous(t, conv) && row.seqno == |Messages(t, conv)|
    ensures Contiguous(t[id := row], conv)
  {
    SeqnoBelow(t, conv);
    InsertLast(t, conv, id, row);
  }

  lemma SeqnoBelow(t: Table, conv: ConvId)
    requires Contiguous(t, conv)
    ensures forall b :: b in RowIds(t, conv) ==> 0 <= t[b].seqno < |Messages(t, conv)|
  {
    var s := Reading(t, conv);
    forall b | b in RowIds(t, conv) ensures 0 <= t[b].seqno < |s| {
      assert b in s;
      var i :| 0 <= i < |s| && s[i] == b;
    }
  }

  /** A conversation reads the same in both tables. */
  predicate SameReading(t: Table, u: Table, conv: ConvId) {
    && Messages(u, conv) == Messages(t, conv)
    && (Contiguous(t, conv) ==> Contiguous(u, conv))
  }

  lemma UntouchedReads(t: Table, u: Table, conv: ConvId)
    requires RowIds(u, conv) == RowIds(t, conv) && forall id :: id in RowIds(t, conv) ==> u[id] == t[id]
    ensures SameReading(t, u, conv)
  {
    SameRows(t, u, conv);
    assert forall i :: 0 <= i < |Reading(t, conv)| ==> Reading(t, conv)[i] in Reading(t, conv);
  }

  /** A turn's two rows, inserted after all others. */
  function WithTurn(t: Table, conv: ConvId, id: int, n: int, user: string, assistant: string): Table {
    t[id := Row(conv, n, User, user)][id + 1 := Row(conv, n + 1, Assistant, assistant)]
  }

  lemma TurnReads(t: Table, conv: ConvId, id: int, n: int, user: string, assistant: string)
    requires id !in t && id + 1 !in t && forall b :: b in RowIds(t, conv) ==> t[b].seqno < n
    ensures Messages(WithTurn(t, conv, id, n, user, assistant), conv) ==
            Messages(t, conv) + [Message(User, user), Message(Assistant, assistant)]
  {
    var middle := t[id := Row(conv, n, User, user)];
    InsertLast(t, conv, id, Row(conv, n, User, user));
    StillBelow(t, conv, id, n, user);
    InsertLast(middle, conv, id + 1, Row(conv, n + 1, Assistant, assistant));
    Two(Messages(t, conv), Message(User, user), Message(Assistant, assistant));
  }

  lemma StillBelow(t: Table, conv: ConvId, id: int, n: int, user: string)
    requires id !in t && forall b :: b in RowIds(t, conv) ==> t[b].seqno < n
    ensures var middle := t[id := Row(conv, n, User, user)];
            forall b :: b in RowIds(middle, conv) ==> middle[b].seqno < n + 1
  {
    var middle := t[id := Row(conv, n, User, user)];
    assert RowIds(middle, conv) == RowIds(t, conv) + {id};
  }

  lemma Two<T>(s: seq<T>, a: T, b: T)
    ensures s + [a] + [b] == s + [a, b]
  {
  }

  lemma TurnContiguous(t: Table, conv: ConvId, id: int, n: int, user: string, assistant: string)
    requires id !in t && id + 1 !in t && Contiguous(t, conv) && n == |Messages(t, conv)|
    ensures Contiguous(WithTurn(t, conv, id, n, user, assistant), conv)
  {
    var first := Row(conv, n, User, user);
    SeqnoBelow(t, conv);
    InsertLast(t, conv, id, first);
    InsertContiguous(t, conv, id, first);
    InsertContiguous(t[id := first], conv, id + 1, Row(conv, n + 1, Assistant, assistant));
  }

  lemma TurnElsewhere(t: Table, conv: ConvId, id: int, n: int, user: string, assistant: string, other: ConvId)
    requires id !in t && id + 1 !in t && other != conv
    ensures SameReading(t, WithTurn(t, conv, id, n, user, assistant), other)
  {
    var u := WithTurn(t, conv, id, n, user, assistant);
    assert RowIds(u, other) == RowIds(t, other);
    UntouchedReads(t, u, other);
  }

  // ---- renumbering ----

  function Position(s: seq<int>, id: int): (i: int)
    ensures 0 <= i <= |s|
    ensures id in s ==> i < |s| && s[i] == id
  {
    if s == [] then 0 else if s[0] == id then 0 else 1 + Position(s[1..], id)
  }

  /** One conversation's rows numbered by their place in the reading order, all else kept. */
  function Renumbered(t: Table, conv: ConvId): (u: Table)
    ensures u.Keys == t.Keys
  {
    map id | id in t :: if t[id].conv == conv then t[id].(seqno := Position(Reading(t, conv), id)) else t[id]
  }

  lemma PositionAt(s: seq<int>, i: nat)
    requires i < |s| && forall j :: 0 <= j < i ==> s[j] != s[i]
    ensures Position(s, s[i]) == i
    decreases i
  {
    if i > 0 {
      assert s[1..][i - 1] == s[i];
      PositionAt(s[1..], i - 1);
    }
  }

  lemma RenumberedRows(t: Table, conv: ConvId)
    ensures var u, s := Renumbered(t, conv), Reading(t, conv);
            && RowIds(u, conv) == RowIds(t, conv)
            && forall i :: 0 <= i < |s| ==> s[i] in t && s[i] in u && u[s[i]] == t[s[i]].(seqno := i)
  {
    var s := Reading(t, conv);
    OrderedInOrder(t, RowIds(t, conv));
    forall i | 0 <= i < |s| ensures s[i] in t && Renumbered(t, conv)[s[i]] == t[s[i]].(seqno := i) {
      assert s[i] in s;
      PositionAt(s, i);
    }
  }

  lemma RenumberedOrder(t: Table, conv: ConvId)
    ensures Reading(Renumbered(t, conv), conv) == Reading(t, conv)
  {
    var u, s := Renumbered(t, conv), Reading(t, conv);
    RenumberedRows(t, conv);
    assert InOrder(u, s);
    OrderedUnique(u, RowIds(u, conv), s);
  }

  /** The reading order is kept, and the numbers become 0 up to one less than the count. */
  lemma RenumberedReads(t: Table, conv: ConvId)
    ensures var u := Renumbered(t, conv);
            Reading(u, conv) == Reading(t, conv) && Messages(u, conv) == Messages(t, conv) && Contiguous(u, conv)
  {
    RenumberedOrder(t, conv);
    RenumberedRows(t, conv);
    assert forall i :: 0 <= i < |Reading(t, conv)| ==> Reading(t, conv)[i] in Reading(t, conv);
  }

  lemma ContiguousHasNoRepeats(t: Table, conv: ConvId)
    requires Contiguous(t, conv)
    ensures !Repeats(t, conv)
  {
    var s := Reading(t, conv);
    forall a, b | a in t && b in t && a != b && t[a].conv == t[b].conv == conv ensures t[a].seqno != t[b].seqno {
      assert a in RowIds(t, conv) && b in RowIds(t, conv);
      assert a in s && b in s;
    }
  }

  /** The number is held by no other row of the conversation. */
  predicate Unheld(t: Table, id: int, seqno: int)
    requires id in t
  {
    forall b :: b in t && b != id && t[b].conv == t[id].conv ==> t[b].seqno != seqno
  }

  /** Positive identifiers and no negative number. */
  predicate Numbered(t: Table, conv: ConvId) {
    forall id :: id in t && t[id].conv == conv ==> id >= 1 && t[id].seqno >= 0
  }

  /** The table when the first `moved` rows have temporary numbers and the first `placed` final ones. */
  function Moved(t: Table, conv: ConvId, ids: seq<int>, moved: nat, placed: nat): (u: Table)
    ensures u.Keys == t.Keys
  {
    map id | id in t ::
      if t[id].conv != conv then t[id]
      else t[id].(seqno := if Position(ids, id) < placed then Position(ids, id)
                           else if Position(ids, id) < moved then -id - 1
                           else t[id].seqno)
  }

  /** The rows of the conversation, each at its own place. */
  predicate Lists(t: Table, conv: ConvId, ids: seq<int>) {
    && (forall i :: 0 <= i < |ids| ==> ids[i] in t && t[ids[i]].conv == conv && Position(ids, ids[i]) == i)
    && (forall id :: id in t && t[id].conv == conv ==> Position(ids, id) < |ids| && ids[Position(ids, id)] == id)
  }

  lemma ReadingLists(t: Table, conv: ConvId)
    ensures Lists(t, conv, Reading(t, conv))
  {
    var s := Reading(t, conv);
    OrderedInOrder(t, RowIds(t, conv));
    forall i | 0 <= i < |s| ensures s[i] in t && t[s[i]].conv == conv && Position(s, s[i]) == i {
      assert s[i] in s;
      PositionAt(s, i);
    }
    forall id | id in t && t[id].conv == conv ensures Position(s, id) < |s| && s[Position(s, id)] == id {
      assert id in RowIds(t, conv);
    }
  }

  lemma MovedNone(t: Table, conv: ConvId, ids: seq<int>)
    ensures Moved(t, conv, ids, 0, 0) == t
  {
  }

  lemma MovedStep(t: Table, conv: ConvId, ids: seq<int>, i: nat)
    requires Lists(t, conv, ids) && i < |ids|
    ensures var u := Moved(t, conv, ids, i, 0);
            && ids[i] in u
            && u[ids[i] := u[ids[i]].(seqno := -ids[i] - 1)] == Moved(t, conv, ids, i + 1, 0)
            && (Numbered(t, conv) ==> Unheld(u, ids[i], -ids[i] - 1))
  {
    var u, v := Moved(t, conv, ids, i, 0), Moved(t, conv, ids, i + 1, 0);
    forall id | id in t && id != ids[i] ensures u[id] == v[id] {
      assert t[id].conv == conv ==> ids[Position(ids, id)] == id;
    }
  }

  lemma PlacedStep(t: Table, conv: ConvId, ids: seq<int>, i: nat)
    requires Lists(t, conv, ids) && i < |ids|
    ensures var u := Moved(t, conv, ids, |ids|, i);
            && ids[i] in u
            && u[ids[i] := u[ids[i]].(seqno := i)] == Moved(t, conv, ids, |ids|, i + 1)
            && (Numbered(t, conv) ==> Unheld(u, ids[i], i))
  {
    var u, v := Moved(t, conv, ids, |ids|, i), Moved(t, conv, ids, |ids|, i + 1);
    forall id | id in t && id != ids[i] ensures u[id] == v[id] {
      assert t[id].conv == conv ==> ids[Position(ids, id)] == id;
    }
  }

  lemma MovedAll(t: Table, conv: ConvId, ids: seq<int>)
    requires ids == Reading(t, conv)
    ensures Moved(t, conv, ids, |ids|, |ids|) == Renumbered(t, conv)
  {
    ReadingLists(t, conv);
  }

  // ---- the conversations to repair ----

  predicate IsLeast(a: ConvId, ids: set<ConvId>) {
    a in ids && forall b :: b in ids ==> a <= b
  }

  function Least(ids: set<ConvId>): (a: ConvId)
    requires ids != {}
    ensures IsLeast(a, ids)
  {
    LeastExists(ids);
    var a :| IsLeast(a, ids);
    a
  }

  lemma {:induction false} LeastExists(ids: set<ConvId>)
    requires ids != {}
    ensures exists a :: IsLeast(a, ids)
    decreases |ids|
  {
    assert (forall a: ConvId :: a !in ids) ==> ids == {};
    var a :| a in ids;
    var rest := ids - {a};
    assert forall b :: b in ids ==> b == a || b in rest;
    if rest == {} {
      assert IsLeast(a, ids);
    } else {
      LeastExists(rest);
      var m :| IsLeast(m, rest);
      assert IsLeast(if a <= m then a else m, ids);
    }
  }

  lemma RepeatsStored(t: Table, conversations: set<ConvId>)
    requires forall id :: id in t ==> t[id].conv in conversations
    ensures forall conv :: Repeats(t, conv) ==> conv in conversations
  {
  }

  /** The numbers that more than one row of the conversation holds. */
  function RepeatedNumbers(t: Table, conv: ConvId): set<int> {
    set a, b | a in t && b in t && a != b && t[a].conv == t[b].conv == conv && t[a].seqno == t[b].seqno :: t[a].seqno
  }

  lemma RepeatedIsRepeats(t: Table, conv: ConvId)
    ensures |RepeatedNumbers(t, conv)| > 0 <==> Repeats(t, conv)
  {
    var repeated := RepeatedNumbers(t, conv);
    assert (forall n: int :: n !in repeated) ==> repeated == {};
    if a, b :| a in t && b in t && a != b && t[a].conv == t[b].conv == conv && t[a].seqno == t[b].seqno {
      assert t[a].seqno in repeated;
    }
  }

  /** Neighbouring equal entries kept once. */
  function Deduplicated(groups: seq<ConvId>): (d: seq<ConvId>)
    ensures forall c :: c in d <==> c in groups
    ensures |d| <= |groups| && (groups != [] ==> d != [] && d[|d| - 1] == groups[|groups| - 1])
  {
    if groups == [] then []
    else
      var last := groups[|groups| - 1];
      var d := Deduplicated(groups[..|groups| - 1]);
      if d != [] && d[|d| - 1] == last then d else d + [last]
  }

  predicate Rising(s: seq<ConvId>) {
    forall i, j :: 0 <= i < j < |s| ==> s[i] < s[j]
  }

  predicate NeverFalling(s: seq<ConvId>) {
    forall i, j :: 0 <= i < j < |s| ==> s[i] <= s[j]
  }

  lemma RisingSnoc(s: seq<ConvId>, last: ConvId)
    requires Rising(s) && (s != [] ==> s[|s| - 1] < last)
    ensures Rising(s + [last])
  {
    forall i | 0 <= i < |s| ensures s[i] < last {
      if i < |s| - 1 {
        assert s[i] < s[|s| - 1];
      }
    }
  }

  lemma {:induction false} DeduplicatedRises(groups: seq<ConvId>)
    requires NeverFalling(groups)
    ensures Rising(Deduplicated(groups))
    decreases |groups|
  {
    if groups != [] {
      var front := groups[..|groups| - 1];
      var d := Deduplicated(front);
      DeduplicatedRises(front);
      var last := groups[|groups| - 1];
      if d != [] && d[|d| - 1] != last {
        assert d[|d| - 1] == front[|front| - 1] == groups[|front| - 1];
        RisingSnoc(d, last);
      }
    }
  }

  lemma CopiesAppended(groups: seq<ConvId>, conv: ConvId, n: nat)
    requires NeverFalling(groups) && forall g :: g in groups ==> g <= conv
    ensures var more := groups + seq(n, _ => conv);
            NeverFalling(more) && forall g :: g in more <==> g in groups || (n > 0 && g == conv)
  {
    var more := groups + seq(n, _ => conv);
    assert forall i :: 0 <= i < |groups| ==> groups[i] in groups;
    assert n > 0 ==> more[|groups|] == conv;
    assert forall i :: 0 <= i < |groups| ==> more[i] == groups[i];
  }

  lemma DistinctAt(convs: seq<ConvId>, i: nat)
    requires i < |convs| && Rising(convs)
    ensures convs[i] !in convs[..i]
  {
  }

  /** The table with every listed conversation renumbered. */
  function AllRenumbered(t: Table, convs: seq<ConvId>): (u: Table)
    ensures u.Keys == t.Keys
  {
    map id | id in t ::
      if t[id].conv in convs then t[id].(seqno := Position(Reading(t, t[id].conv), id)) else t[id]
  }

  lemma AllRenumberedNone(t: Table)
    ensures AllRenumbered(t, []) == t
  {
  }

  /** Conversations not listed keep their rows. */
  lemma Unlisted(t: Table, convs: seq<ConvId>, conv: ConvId)
    requires conv !in convs
    ensures var u := AllRenumbered(t, convs);
            RowIds(u, conv) == RowIds(t, conv) && forall id :: id in RowIds(t, conv) ==> u[id] == t[id]
  {
  }

  lemma AllRenumberedStep(t: Table, convs: seq<ConvId>, i: nat)
    requires i < |convs| && convs[i] !in convs[..i]
    ensures var u := AllRenumbered(t, convs[..i]);
            && Renumbered(u, convs[i]) == AllRenumbered(t, convs[..i + 1])
            && (Numbered(t, convs[i]) ==> Numbered(u, convs[i]))
  {
    var u := AllRenumbered(t, convs[..i]);
    Unlisted(t, convs[..i], convs[i]);
    SameRows(t, u, convs[i]);
    StepRows(t, u, convs, i, Reading(t, convs[i]));
    assert forall id :: id in t && t[id].conv == convs[i] ==> id in RowIds(t, convs[i]);
  }

  lemma StepRows(t: Table, u: Table, convs: seq<ConvId>, i: nat, reading: seq<int>)
    requires i < |convs| && convs[i] !in convs[..i] && u == AllRenumbered(t, convs[..i])
    requires reading == Reading(t, convs[i]) == Reading(u, convs[i])
    ensures Renumbered(u, convs[i]) == AllRenumbered(t, convs[..i + 1])
  {
    hide Reading;
    var v, w := Renumbered(u, convs[i]), AllRenumbered(t, convs[..i + 1]);
    assert convs[..i + 1] == convs[..i] + [convs[i]];
    forall id | id in t ensures v[id] == w[id] {
      assert u[id].conv == t[id].conv;
    }
  }

  /** A listed conversation reads as if it alone had been renumbered. */
  lemma ListedReads(t: Table, convs: seq<ConvId>, conv: ConvId)
    requires conv in convs
    ensures var u := AllRenumbered(t, convs); Messages(u, conv) == Messages(t, conv) && Contiguous(u, conv)
  {
    var u, v := AllRenumbered(t, convs), Renumbered(t, conv);
    RenumberedReads(t, conv);
    SameAsAlone(t, convs, conv);
    UntouchedReads(v, u, conv);
  }

  lemma SameAsAlone(t: Table, convs: seq<ConvId>, conv: ConvId)
    requires conv in convs
    ensures var u, v := AllRenumbered(t, convs), Renumbered(t, conv);
            RowIds(u, conv) == RowIds(v, conv) && forall id :: id in RowIds(v, conv) ==> u[id] == v[id]
  {
  }

  /** Any other reads as before. */
  lemma UnlistedReads(t: Table, convs: seq<ConvId>, conv: ConvId)
    requires conv !in convs
    ensures var u := AllRenumbered(t, convs);
            Messages(u, conv) == Messages(t, conv) && (Repeats(u, conv) <==> Repeats(t, conv))
  {
    Unlisted(t, convs, conv);
    UntouchedReads(t, AllRenumbered(t, convs), conv);
    RepeatsByRows(t, AllRenumbered(t, convs), conv);
  }

  lemma RepeatsByRows(t: Table, u: Table, conv: ConvId)
    requires RowIds(u, conv) == RowIds(t, conv) && forall id :: id in RowIds(t, conv) ==> u[id] == t[id]
    ensures Repeats(u, conv) <==> Repeats(t, conv)
  {
    if a, b :| a in t && b in t && a != b && t[a].conv == t[b].conv == conv && t[a].seqno == t[b].seqno {
      assert a in RowIds(u, conv) && b in RowIds(u, conv);
    }
    if a, b :| a in u && b in u && a != b && u[a].conv == u[b].conv == conv && u[a].seqno == u[b].seqno {
      assert a in RowIds(u, conv) && b in RowIds(u, conv);
    }
  }

  lemma AllRenumberedSound(t: Table, convs: seq<ConvId>)
    requires forall conv :: conv in convs <==> Repeats(t, conv)
    ensures var u := AllRenumbered(t, convs);
            && (forall conv :: !Repeats(u, conv) && Messages(u, conv) == Messages(t, conv))
            && (forall conv :: Repeats(t, conv) ==> Contiguous(u, conv))
  {
    var u := AllRenumbered(t, convs);
    forall conv: ConvId
      ensures !Repeats(u, conv) && Messages(u, conv) == Messages(t, conv) && (Repeats(t, conv) ==> Contiguous(u, conv))
    {
      if conv in convs {
        ListedReads(t, convs, conv);
        ContiguousHasNoRepeats(u, conv);
      } else {
        UnlistedReads(t, convs, conv);
      }
    }
  }

  // ---- the transactions as what they do to what is stored ----

  datatype Disk = Disk(conversations: set<ConvId>, rows: Table, nextId: int)

  /** Identifiers are positive and given once; every row belongs to a conversation. */
  predicate DiskOk(d: Disk) {
    && d.nextId >= 1
    && forall id :: id in d.rows ==> 1 <= id < d.nextId && d.rows[id].conv in d.conversations
  }

  ghost predicate Appended(d: Disk, d': Disk, conv: ConvId, user: string, assistant: string) {
    && conv in d.conversations
    && exists n :: IsNext(d.rows, conv, n) && d' == AppendedAt(d, conv, n, user, assistant)
  }

  function AppendedAt(d: Disk, conv: ConvId, n: int, user: string, assistant: string): Disk {
    d.(rows := WithTurn(d.rows, conv, d.nextId, n, user, assistant), nextId := d.nextId + 2)
  }

  predicate Created(d: Disk, d': Disk, conv: ConvId, user: string, assistant: string) {
    && conv !in d.conversations
    && d' == AppendedAt(d.(conversations := d.conversations + {conv}), conv, 0, user, assistant)
  }

  predicate Deleted(d: Disk, d': Disk, conv: ConvId) {
    && conv in d.conversations
    && d' == d.(conversations := d.conversations - {conv},
                rows := map id | id in d.rows && d.rows[id].conv != conv :: d.rows[id])
  }

  class Store {
    /** Whether the next statement, or the next wait for a lock, fails. */
    const mishap: nat -> bool
    var conversations: set<ConvId>
    var rows: Table
    var nextId: int
    var asked: nat

    constructor (mishap: nat -> bool)
      ensures Valid() && conversations == {} && rows == map[] && this.mishap == mishap
    {
      this.mishap := mishap;
      conversations, rows, nextId, asked := {}, map[], 1, 0;
    }

    /** One of the statements from the m-th to before the n-th failed. */
    ghost predicate Troubled(m: nat, n: nat) { exists k :: m <= k < n && mishap(k) }

    method Fails() returns (broken: bool)
      modifies this`asked
      ensures asked == old(asked) + 1 && broken == Troubled(old(asked), asked)
    {
      broken := mishap(asked);
      asked := asked + 1;
    }

    function Kept(): Disk
      reads this
    {
      Disk(conversations, rows, nextId)
    }

    predicate Valid()
      reads this
    {
      DiskOk(Kept())
    }

    /** The next sequence number, unless the conversation is gone. */
    method NextMessageSeq(conv: ConvId) returns (r: Option<int>)
      ensures r.None? <==> conv !in conversations
      ensures r.Some? ==> IsNext(rows, conv, r.value)
    {
      if conv !in conversations {
        return None;
      }
      var s := Reading(rows, conv);
      var highest := -1;
      var i := 0;
      while i < |s|
        invariant 0 <= i <= |s|
        invariant forall j :: 0 <= j < i ==> s[j] in rows && rows[s[j]].seqno <= highest
        invariant if i == 0 then highest == -1
                  else exists j :: 0 <= j < i && s[j] in rows && rows[s[j]].seqno == highest
      {
        assert s[i] in s;
        if i == 0 || rows[s[i]].seqno > highest {
          highest := rows[s[i]].seqno;
        }
        i := i + 1;
      }
      if s == [] {
        assert forall id :: id !in RowIds(rows, conv);
        assert RowIds(rows, conv) == {};
      } else {
        var j :| 0 <= j < |s| && s[j] in rows && rows[s[j]].seqno == highest;
        assert s[j] in s;
        assert s[j] in RowIds(rows, conv);
        assert Precedes(rows, conv, s[j], highest + 1);
      }
      forall id | id in RowIds(rows, conv) ensures rows[id].seqno < highest + 1 {
        assert id in s;
      }
      r := Some(highest + 1);
    }

    /** A row inserted unless the unique index refuses its number. */
    method Insert(row: Row) returns (ok: bool)
      requires Valid() && row.conv in conversations
      modifies this`rows, this`nextId
      ensures Valid()
      ensures ok == !(exists id :: id in RowIds(old(rows), row.conv) && old(rows)[id].seqno == row.seqno)
      ensures ok ==> old(nextId) !in old(rows) && rows == old(rows)[old(nextId) := row] && nextId == old(nextId) + 1
      ensures !ok ==> rows == old(rows)
    {
      if exists id :: id in RowIds(rows, row.conv) && rows[id].seqno == row.seqno {
        return false;
      }
      rows := rows[nextId := row];
      nextId := nextId + 1;
      ok := true;
    }

    /** A completed turn: both messages or neither. */
    method AppendTurn(conv: ConvId, user: string, assistant: string) returns (ok: bool)
      requires Valid()
      modifies this`rows, this`nextId, this`asked
      ensures Valid() && old(asked) <= asked
      ensures ok <==> conv in conversations && !Troubled(old(asked), asked)
      ensures !ok ==> rows == old(rows) && nextId == old(nextId)
      ensures ok ==> conv in conversations
                     && Messages(rows, conv) ==
                        old(Messages(rows, conv)) + [Message(User, user), Message(Assistant, assistant)]
      ensures ok ==> Appended(old(Kept()), Kept(), conv, user, assistant)
      ensures old(Contiguous(rows, conv)) ==> Contiguous(rows, conv)
      ensures forall other :: other != conv ==> SameReading(old(rows), rows, other)
    {
      var before, idBefore := rows, nextId;
      var next := NextMessageSeq(conv);
      var broken := Fails();
      if next.None? || broken {
        return false;
      }
      ok := InsertTurn(conv, next.value, user, assistant);
      if !ok {
        rows, nextId := before, idBefore;
        return;
      }
      TurnReads(before, conv, idBefore, next.value, user, assistant);
      if Contiguous(before, conv) {
        NextIsLength(before, conv, next.value);
        TurnContiguous(before, conv, idBefore, next.value, user, assistant);
      }
      forall other | other != conv ensures SameReading(old(rows), rows, other) {
        TurnElsewhere(before, conv, idBefore, next.value, user, assistant, other);
      }
    }

    /** Both rows of a turn, from a number that no row has reached; a failed statement leaves the
        transaction to be rolled back. */
    method InsertTurn(conv: ConvId, n: int, user: string, assistant: string) returns (ok: bool)
      requires Valid() && conv in conversations && forall b :: b in RowIds(rows, conv) ==> rows[b].seqno < n
      modifies this`rows, this`nextId, this`asked
      ensures Valid() || !ok
      ensures asked == old(asked) + 1 && ok == !Troubled(old(asked), asked)
      ensures ok ==> old(nextId) !in old(rows) && old(nextId) + 1 !in old(rows)
                     && Kept() == AppendedAt(old(Kept()), conv, n, user, assistant)
    {
      ok := Insert(Row(conv, n, User, user));
      assert ok;
      ok := Insert(Row(conv, n + 1, Assistant, assistant));
      assert ok;
      var broken := Fails();
      ok := !broken;
    }

    /** A conversation that begins with its first completed turn. */
    method CreateConversationWithTurn(conv: ConvId, user: string, assistant: string) returns (ok: bool)
      requires Valid() && conv !in conversations
      modifies this
      ensures Valid() && old(asked) <= asked
      ensures ok <==> !Troubled(old(asked), asked)
      ensures !ok ==> rows == old(rows) && conversations == old(conversations)
      ensures ok ==> conversations == old(conversations) + {conv} && Contiguous(rows, conv)
                     && Messages(rows, conv) == [Message(User, user), Message(Assistant, assistant)]
      ensures ok ==> Created(old(Kept()), Kept(), conv, user, assistant)
      ensures forall other :: other != conv ==> SameReading(old(rows), rows, other)
    {
      var before, idBefore := rows, nextId;
      assert forall id :: id in rows ==> rows[id].conv != conv;
      assert RowIds(rows, conv) == {};
      assert Messages(rows, conv) == [];
      conversations := conversations + {conv};
      ok := InsertTurn(conv, 0, user, assistant);
      if !ok {
        rows, nextId, conversations := before, idBefore, conversations - {conv};
        assert conversations == old(conversations);
        return;
      }
      TurnReads(before, conv, idBefore, 0, user, assistant);
      TurnContiguous(before, conv, idBefore, 0, user, assistant);
      forall other | other != conv ensures SameReading(old(rows), rows, other) {
        TurnElsewhere(before, conv, idBefore, 0, user, assistant, other);
      }
    }

    method DeleteConversation(conv: ConvId) returns (ok: bool)
      requires Valid()
      modifies this`rows, this`conversations, this`asked
      ensures Valid() && old(asked) <= asked
      ensures ok <==> old(conv in conversations) && !Troubled(old(asked), asked)
      ensures !ok ==> rows == old(rows) && conversations == old(conversations)
      ensures ok ==> old(conv in conversations) && conversations == old(conversations) - {conv}
                     && Messages(rows, conv) == [] && Contiguous(rows, conv)
      ensures ok ==> Deleted(old(Kept()), Kept(), conv)
      ensures forall other :: other != conv ==> SameReading(old(rows), rows, other)
    {
      var broken := Fails();
      if conv !in conversations || broken {
        return false;
      }
      rows := map id | id in rows && rows[id].conv != conv :: rows[id];
      conversations := conversations - {conv};
      assert RowIds(rows, conv) == {};
      forall other | other != conv ensures SameReading(old(rows), rows, other) {
        assert RowIds(rows, other) == RowIds(old(rows), other);
        UntouchedReads(old(rows), rows, other);
      }
      ok := true;
    }

    /** One row's number changed; reports whether another row of its conversation holds the new one. */
    method UpdateSeq(id: int, seqno: int) returns (ghost collides: bool)
      requires id in rows
      modifies this`rows
      ensures rows == old(rows)[id := old(rows)[id].(seqno := seqno)]
      ensures collides == !Unheld(old(rows), id, seqno)
    {
      collides := !Unheld(rows, id, seqno);
      rows := rows[id := rows[id].(seqno := seqno)];
    }

    /** One conversation renumbered in two passes, temporary numbers first. With positive identifiers
        and no negative number, no update meets a number already held. */
    method Renumber(conv: ConvId) returns (ghost clean: bool)
      modifies this`rows
      ensures rows == Renumbered(old(rows), conv)
      ensures Numbered(old(rows), conv) ==> clean
    {
      ghost var before := rows;
      var ids := Reading(rows, conv);
      ReadingLists(rows, conv);
      ghost var first := MoveAside(conv, ids);
      ghost var second := Place(before, conv, ids);
      clean := first && second;
      MovedAll(before, conv, ids);
    }

    method MoveAside(conv: ConvId, ids: seq<int>) returns (ghost clean: bool)
      requires Lists(rows, conv, ids)
      modifies this`rows
      ensures rows == Moved(old(rows), conv, ids, |ids|, 0)
      ensures Numbered(old(rows), conv) ==> clean
    {
      ghost var before := rows;
      clean := true;
      MovedNone(rows, conv, ids);
      var i := 0;
      while i < |ids|
        invariant 0 <= i <= |ids| && rows == Moved(before, conv, ids, i, 0)
        invariant Numbered(before, conv) ==> clean
      {
        MovedStep(before, conv, ids, i);
        ghost var collides := UpdateSeq(ids[i], -ids[i] - 1);
        clean := clean && !collides;
        i := i + 1;
      }
    }

    method Place(ghost before: Table, conv: ConvId, ids: seq<int>) returns (ghost clean: bool)
      requires Lists(before, conv, ids) && rows == Moved(before, conv, ids, |ids|, 0)
      modifies this`rows
      ensures rows == Moved(before, conv, ids, |ids|, |ids|)
      ensures Numbered(before, conv) ==> clean
    {
      clean := true;
      var i := 0;
      while i < |ids|
        invariant 0 <= i <= |ids| && rows == Moved(before, conv, ids, |ids|, i)
        invariant Numbered(before, conv) ==> clean
      {
        PlacedStep(before, conv, ids, i);
        ghost var collides := UpdateSeq(ids[i], i);
        clean := clean && !collides;
        i := i + 1;
      }
    }

    /** The conversations that repeat a number, one entry for each number repeated. */
    method DuplicateGroups() returns (groups: seq<ConvId>)
      requires Valid()
      ensures NeverFalling(groups)
      ensures forall conv :: conv in groups <==> Repeats(rows, conv)
    {
      hide RepeatedNumbers, Repeats;
      groups := [];
      var left := conversations;
      ghost var done: set<ConvId> := {};
      while left != {}
        invariant done + left == conversations && done !! left
        invariant forall c, d :: c in done && d in left ==> c < d
        invariant NeverFalling(groups)
        invariant forall conv :: conv in groups <==> conv in done && Repeats(rows, conv)
        decreases |left|
      {
        var conv := Least(left);
        var repeated := RepeatedNumbers(rows, conv);
        RepeatedIsRepeats(rows, conv);
        CopiesAppended(groups, conv, |repeated|);
        groups := groups + seq(|repeated|, _ => conv);
        done, left := done + {conv}, left - {conv};
      }
      RepeatsStored(rows, conversations);
    }

    /** Every conversation that repeats a number is renumbered once; the rest is left alone, and
        afterwards no conversation repeats a number. */
    method RepairDuplicateSequences() returns (ghost visited: seq<ConvId>, ghost clean: bool)
      requires Valid()
      modifies this`rows
      ensures Valid()
      ensures Rising(visited)
      ensures forall conv :: conv in visited <==> Repeats(old(rows), conv)
      ensures forall conv :: !Repeats(rows, conv) && Messages(rows, conv) == Messages(old(rows), conv)
      ensures forall conv :: Repeats(old(rows), conv) ==> Contiguous(rows, conv)
      ensures forall id :: id in rows <==> id in old(rows)
      ensures forall id :: id in rows ==> if Repeats(old(rows), rows[id].conv)
                                          then rows[id] == old(rows)[id].(seqno := rows[id].seqno)
                                          else rows[id] == old(rows)[id]
      ensures (forall conv :: Repeats(old(rows), conv) ==> Numbered(old(rows), conv)) ==> clean
    {
      var groups := DuplicateGroups();
      var conversations := Deduplicated(groups);
      DeduplicatedRises(groups);
      visited, clean := conversations, true;
      ghost var before := rows;
      AllRenumberedNone(rows);
      var i := 0;
      while i < |conversations|
        invariant 0 <= i <= |conversations|
        invariant rows == AllRenumbered(before, conversations[..i])
        invariant (forall conv :: conv in conversations ==> Numbered(before, conv)) ==> clean
      {
        ghost var here := rows;
        DistinctAt(conversations, i);
        AllRenumberedStep(before, conversations, i);
        ghost var one := Renumber(conversations[i]);
        clean := clean && one;
        i := i + 1;
      }
      assert conversations[..i] == conversations;
      AllRenumberedSound(before, conversations);
    }
  }
}
