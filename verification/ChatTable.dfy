/** The message table of the chat store: rows under integer identifiers, read back in sequence
    order, and the transactions that insert, delete and renumber them. */
module ChatTable {
  type ConvId = nat

  datatype Role = User | Assistant

  datatype Row = Row(conv: ConvId, seqno: int, role: Role, content: string)

  /** One message as replayed. */
  datatype Message = Message(role: Role, content: string)

  type Table = map<int, Row>

  function RowIds(t: Table, conv: ConvId): set<int> {
    set id | id in t && t[id].conv == conv
  }

  /** The order in which rows are read: by sequence number, then by identifier. */
  predicate Before(t: Table, a: int, b: int)
    requires a in t && b in t
  {
    t[a].seqno < t[b].seqno || (t[a].seqno == t[b].seqno && a < b)
  }

  predicate First(t: Table, ids: set<int>, a: int)
    requires forall id :: id in ids ==> id in t
  {
    a in ids && forall b :: b in ids ==> b == a || Before(t, a, b)
  }

  /** An element of a set that has one. */
  ghost function Any(ids: set<int>): (a: int)
    requires ids != {}
    ensures a in ids
  {
    assert (forall a: int :: a !in ids) ==> ids == {};
    var a :| a in ids;
    a
  }

  lemma {:induction false} FirstExists(t: Table, ids: set<int>)
    requires ids != {} && forall id :: id in ids ==> id in t
    ensures exists a :: First(t, ids, a)
    decreases |ids|
  {
    var a := Any(ids);
    var rest := ids - {a};
    if rest == {} {
      assert forall b :: b in ids ==> b == a || b in rest;
      assert First(t, ids, a);
    } else {
      FirstExists(t, rest);
      var b :| First(t, rest, b);
      assert forall c :: c in ids ==> c == a || c in rest;
      if Before(t, a, b) {
        assert First(t, ids, a);
      } else {
        assert First(t, ids, b);
      }
    }
  }

  /** The given rows in reading order. */
  function Ordered(t: Table, ids: set<int>): (s: seq<int>)
    requires forall id :: id in ids ==> id in t
    ensures forall id :: id in s <==> id in ids
    ensures |s| == |ids|
    decreases |ids|
  {
    if ids == {} then []
    else
      FirstExists(t, ids);
      assert forall a, b :: First(t, ids, a) && First(t, ids, b) ==> a == b;
      var a :| First(t, ids, a);
      [a] + Ordered(t, ids - {a})
  }

  predicate InOrder(t: Table, s: seq<int>) {
    && (forall i :: 0 <= i < |s| ==> s[i] in t)
    && (forall i, j :: 0 <= i < j < |s| ==> Before(t, s[i], s[j]))
  }

  lemma {:induction false} OrderedInOrder(t: Table, ids: set<int>)
    requires forall id :: id in ids ==> id in t
    ensures InOrder(t, Ordered(t, ids))
    decreases |ids|
  {
    if ids != {} {
      var s := Ordered(t, ids);
      var rest := Ordered(t, ids - {s[0]});
      assert s[1..] == rest;
      OrderedInOrder(t, ids - {s[0]});
      forall i, j | 0 <= i < j < |s| ensures Before(t, s[i], s[j]) {
        assert s[j] == rest[j - 1] && s[j] in ids - {s[0]};
        if i > 0 {
          assert s[i] == rest[i - 1];
        }
      }
    }
  }

  /** Any list of the rows in order is the ordered list. */
  lemma {:induction false} OrderedUnique(t: Table, ids: set<int>, s: seq<int>)
    requires (forall id :: id in ids ==> id in t) && InOrder(t, s)
    requires forall id :: id in s <==> id in ids
    ensures s == Ordered(t, ids)
    decreases |s|
  {
    if s == [] {
      assert forall id :: id !in ids;
      assert ids == {};
    } else {
      var head, tail, left := s[0], s[1..], ids - {s[0]};
      assert s == [head] + tail;
      HeadIsFirst(t, ids, s);
      TailIsRest(t, ids, s);
      OrderedUnique(t, left, tail);
      OrderedStep(t, ids, head, left);
    }
  }

  lemma OrderedStep(t: Table, ids: set<int>, a: int, left: set<int>)
    requires (forall id :: id in ids ==> id in t) && First(t, ids, a) && left == ids - {a}
    ensures Ordered(t, ids) == [a] + Ordered(t, left)
  {
    var b := Ordered(t, ids)[0];
    assert First(t, ids, b);
    assert a == b;
  }

  lemma HeadIsFirst(t: Table, ids: set<int>, s: seq<int>)
    requires (forall id :: id in ids ==> id in t) && InOrder(t, s) && s != []
    requires forall id :: id in s <==> id in ids
    ensures First(t, ids, s[0])
  {
    assert s[0] in s;
    forall b | b in ids ensures b == s[0] || Before(t, s[0], b) {
      assert b in s;
    }
  }

  lemma TailIsRest(t: Table, ids: set<int>, s: seq<int>)
    requires (forall id :: id in ids ==> id in t) && InOrder(t, s) && s != []
    requires forall id :: id in s <==> id in ids
    ensures InOrder(t, s[1..]) && forall id :: id in s[1..] <==> id in ids - {s[0]}
  {
    forall id ensures id in s[1..] <==> id in ids - {s[0]} {
      if id in s[1..] {
        var i :| 0 <= i < |s[1..]| && s[1..][i] == id;
        assert s[i + 1] == id && Before(t, s[0], s[i + 1]);
      }
    }
  }

  function Reading(t: Table, conv: ConvId): (s: seq<int>)
    ensures forall id :: id in s <==> id in RowIds(t, conv)
  {
    Ordered(t, RowIds(t, conv))
  }

  /** The messages of a conversation, oldest first. */
  function Messages(t: Table, conv: ConvId): (ms: seq<Message>)
    ensures |ms| == |Reading(t, conv)|
  {
    var s := Reading(t, conv);
    seq(|s|, i requires 0 <= i < |s| => assert s[i] in s; Message(t[s[i]].role, t[s[i]].content))
  }

  /** Sequence numbers count from zero without gaps or repeats. */
  predicate Contiguous(t: Table, conv: ConvId) {
    var s := Reading(t, conv);
    forall i :: 0 <= i < |s| ==> s[i] in s && t[s[i]].seqno == i
  }

  /** Two rows of one conversation under one number. */
  predicate Repeats(t: Table, conv: ConvId) {
    exists a, b :: a in t && b in t && a != b && t[a].conv == t[b].conv == conv && t[a].seqno == t[b].seqno
  }

  // ---- the next sequence number ----

  /** A row of the conversation numbered one less than n. */
  predicate Precedes(t: Table, conv: ConvId, id: int, n: int) {
    id in t && t[id].conv == conv && t[id].seqno == n - 1
  }

  /** COALESCE(MAX(seq), -1) + 1 over the rows of one conversation. */
  ghost predicate IsNext(t: Table, conv: ConvId, n: int) {
    && (forall id :: id in RowIds(t, conv) ==> t[id].seqno < n)
    && (if RowIds(t, conv) == {} then n == 0 else exists id :: Precedes(t, conv, id, n))
  }

  lemma NextIsLength(t: Table, conv: ConvId, n: int)
    requires Contiguous(t, conv) && IsNext(t, conv, n)
    ensures n == |Messages(t, conv)|
  {
    var s := Reading(t, conv);
    if s != [] {
      assert s[|s| - 1] in RowIds(t, conv);
      var id :| Precedes(t, conv, id, n);
      assert id in RowIds(t, conv);
      assert id in s;
      var i :| 0 <= i < |s| && s[i] == id;
    } else {
      assert RowIds(t, conv) == {};
    }
  }

  /** A new row after all others extends the reading by itself. */
  lemma InsertLast(t: Table, conv: ConvId, id: int, row: Row)
    requires id !in t && row.conv == conv
    requires forall b :: b in RowIds(t, conv) ==> t[b].seqno < row.seqno
    ensures Reading(t[id := row], conv) == Reading(t, conv) + [id]
    ensures Messages(t[id := row], conv) == Messages(t, conv) + [Message(row.role, row.content)]
  {
    hide Messages;
    LastReads(t, conv, id, row);
    OrderedInOrder(t, RowIds(t, conv));
    MessagesOf(t, t[id := row], conv, Reading(t, conv), id);
  }

  lemma LastReads(t: Table, conv: ConvId, id: int, row: Row)
    requires id !in t && row.conv == conv
    requires forall b :: b in RowIds(t, conv) ==> t[b].seqno < row.seqno
    ensures Reading(t[id := row], conv) == Reading(t, conv) + [id]
  {
    hide Messages, Ordered;
    var u := t[id := row];
    var s := Reading(t, conv);
    OrderedInOrder(t, RowIds(t, conv));
    assert RowIds(u, conv) == RowIds(t, conv) + {id};
    AppendInOrder(t, s, id, row);
    OrderedUnique(u, RowIds(u, conv), s + [id]);
  }

  lemma AppendInOrder(t: Table, s: seq<int>, id: int, row: Row)
    requires id !in t && InOrder(t, s) && forall i :: 0 <= i < |s| ==> t[s[i]].seqno < row.seqno
    ensures InOrder(t[id := row], s + [id])
  {
  }

  lemma MessagesOf(t: Table, u: Table, conv: ConvId, s: seq<int>, id: int)
    requires s == Reading(t, conv) && Reading(u, conv) == s + [id]
    requires id in u && forall b :: b in s ==> b in u && b in t && u[b] == t[b]
    ensures Messages(u, conv) == Messages(t, conv) + [Message(u[id].role, u[id].content)]
  {
    assert forall i :: 0 <= i < |s| ==> s[i] in s;
    assert Reading(u, conv)[|s|] == id;
    assert forall i :: 0 <= i < |s| ==> Reading(u, conv)[i] == s[i];
  }

  lemma SameRows(t: Table, u: Table, conv: ConvId)
    requires RowIds(u, conv) == RowIds(t, conv) && forall id :: id in RowIds(t, conv) ==> u[id] == t[id]
    ensures Reading(u, conv) == Reading(t, conv) && Messages(u, conv) == Messages(t, conv)
  {
    var s := Reading(t, conv);
    OrderedInOrder(t, RowIds(t, conv));
    SameInOrder(t, u, s);
    OrderedUnique(u, RowIds(u, conv), s);
    assert forall i :: 0 <= i < |s| ==> s[i] in s;
  }

  lemma SameInOrder(t: Table, u: Table, s: seq<int>)
    requires InOrder(t, s) && forall id :: id in s ==> id in u && u[id] == t[id]
    ensures InOrder(u, s)
  {
    assert forall i :: 0 <= i < |s| ==> s[i] in s;
  }
}
