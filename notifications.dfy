/**
 * The `notifications` query: four source selections over the tables, the
 * union in feed order with `OFFSET offset LIMIT limit`, the continuation
 * cursor, the read-state stamp and the per-kind type resolution.
 */
module Notifications {
  import opened Common
  import opened Decimal
  import opened FeedOrder

  /** The page size `LIMIT` of the cursor library: some positive constant. */
  type PageSize = n: nat | n > 0 witness 1

  // ---------------------------------------------------------------- tables

  datatype Item = Item(id: nat, userId: nat, parentId: Option<nat>, createdAt: int)

  /** A row of "ItemAct": who acted on which item, with which act and how many sats. */
  datatype ItemAct = ItemAct(itemId: nat, userId: nat, act: string, sats: int, createdAt: int)

  datatype MentionRecord = MentionRecord(itemId: nat, userId: nat, createdAt: int)

  datatype Invite = Invite(id: string, userId: nat)

  /** A row of `users`, reduced to the invite it was created through and its creation time. */
  datatype Account = Account(inviteId: Option<string>, createdAt: int)

  datatype Tables = Tables(
    items: seq<Item>,
    acts: seq<ItemAct>,
    mentions: seq<MentionRecord>,
    invites: seq<Invite>,
    users: seq<Account>)

  /** The decoded pagination cursor: the pinned snapshot time and the row offset. */
  datatype Cursor = Cursor(time: int, offset: nat)

  /** `"Item".id` is the primary key of "Item". */
  ghost predicate UniqueItemIds(items: seq<Item>)
  {
    forall i, j :: 0 <= i < j < |items| ==> items[i].id != items[j].id
  }

  /** The item a join on `"Item".id = id` meets, if any. */
  function FindItem(items: seq<Item>, id: nat): (r: Option<Item>)
    ensures r.Some? ==> r.value in items && r.value.id == id
    ensures r.None? ==> forall i :: 0 <= i < |items| ==> items[i].id != id
  {
    if items == [] then None
    else if items[0].id == id then Some(items[0])
    else FindItem(items[1..], id)
  }

  lemma {:induction false} FindItemUnique(items: seq<Item>, i: Item)
    requires UniqueItemIds(items) && i in items
    ensures FindItem(items, i.id) == Some(i)
  {
    if items[0] != i {
      assert items[0].id != i.id by {
        var k :| 0 <= k < |items| && items[k] == i;
        assert k > 0;
      }
      assert i in items[1..];
      FindItemUnique(items[1..], i);
    }
  }

  /** The parent row `p` of the self join `"Item"."parentId" = p.id`. */
  function Parent(items: seq<Item>, i: Item): Option<Item>
  {
    match i.parentId
    case None => None
    case Some(pid) => FindItem(items, pid)
  }

  // ---------------------------------------------------------------- Reply

  /** A reply to one of `me`'s items, by someone else, no later than `time`. */
  predicate IsReply(items: seq<Item>, me: nat, time: int, i: Item)
  {
    && Parent(items, i).Some? && Parent(items, i).value.userId == me
    && i.userId != me
    && i.createdAt <= time
  }

  function ReplyRow(i: Item): Row
  {
    Row(NatToString(i.id), i.createdAt, None, Reply)
  }

  /** The Reply selection over the rows `from` of "Item", before its `LIMIT`. */
  function ReplyRows(items: seq<Item>, from: seq<Item>, me: nat, time: int): (rs: seq<Row>)
    ensures |rs| <= |from|
    ensures forall r :: r in rs ==> r.kind == Reply && r.earnedSats.None? && r.sortTime <= time
  {
    if from == [] then []
    else (if IsReply(items, me, time, from[0]) then [ReplyRow(from[0])] else [])
         + ReplyRows(items, from[1..], me, time)
  }

  lemma {:induction false} ReplyRowsExactly(items: seq<Item>, from: seq<Item>, me: nat, time: int, r: Row)
    ensures r in ReplyRows(items, from, me, time)
        <==> exists i :: i in from && IsReply(items, me, time, i) && r == ReplyRow(i)
  {
    if from != [] {
      ReplyRowsExactly(items, from[1..], me, time, r);
      assert from == [from[0]] + from[1..];
    }
  }

  /** With item ids a primary key, each item yields at most one Reply row. */
  lemma {:induction false} ReplyRowsOnePerItem(items: seq<Item>, from: seq<Item>, me: nat, time: int)
    requires UniqueItemIds(from)
    ensures var rows := ReplyRows(items, from, me, time);
            forall a, b :: 0 <= a < b < |rows| ==> rows[a].id != rows[b].id
  {
    if from != [] {
      var rest := ReplyRows(items, from[1..], me, time);
      assert UniqueItemIds(from[1..]) by {
        forall x, y | 0 <= x < y < |from[1..]| ensures from[1..][x].id != from[1..][y].id {
          assert from[1..][x] == from[x + 1] && from[1..][y] == from[y + 1];
        }
      }
      ReplyRowsOnePerItem(items, from[1..], me, time);
      forall b | 0 <= b < |rest| ensures rest[b].id != NatToString(from[0].id) {
        ReplyRowsExactly(items, from[1..], me, time, rest[b]);
        var i :| i in from[1..] && IsReply(items, me, time, i) && rest[b] == ReplyRow(i);
        var k :| 0 <= k < |from[1..]| && from[1..][k] == i;
        assert from[k + 1] == i;
        NatToStringInjective(i.id, from[0].id);
      }
    }
  }

  // ---------------------------------------------------------------- Votification

  /** An act that earns a notification: by someone else, not a boost, no later than `time`. */
  predicate Qualifies(a: ItemAct, me: nat, time: int)
  {
    a.userId != me && a.createdAt <= time && a.act != "BOOST"
  }

  /** The acts joined to item `itemId` that pass the WHERE clause. */
  function QualifyingActs(acts: seq<ItemAct>, itemId: nat, me: nat, time: int): (q: seq<ItemAct>)
    ensures forall a :: a in q <==> a in acts && a.itemId == itemId && Qualifies(a, me, time)
  {
    if acts == [] then []
    else (if acts[0].itemId == itemId && Qualifies(acts[0], me, time) then [acts[0]] else [])
         + QualifyingActs(acts[1..], itemId, me, time)
  }

  function SumSats(acts: seq<ItemAct>): int
  {
    if acts == [] then 0 else acts[0].sats + SumSats(acts[1..])
  }

  /** The selected acts of an item are those of the table, each as often as the table holds it. */
  lemma {:induction false} QualifyingActsCount(acts: seq<ItemAct>, itemId: nat, me: nat, time: int, a: ItemAct)
    ensures multiset(QualifyingActs(acts, itemId, me, time))[a]
            == if a.itemId == itemId && Qualifies(a, me, time) then multiset(acts)[a] else 0
  {
    if acts != [] {
      QualifyingActsCount(acts[1..], itemId, me, time, a);
      assert acts == [acts[0]] + acts[1..];
    }
  }

  lemma {:induction false} SumSatsConcat(s: seq<ItemAct>, t: seq<ItemAct>)
    ensures SumSats(s + t) == SumSats(s) + SumSats(t)
  {
    if s != [] {
      assert (s + t)[0] == s[0] && (s + t)[1..] == s[1..] + t;
      SumSatsConcat(s[1..], t);
    } else {
      assert s + t == t;
    }
  }

  /** Taking one act out of a sequence takes one copy of it out of the multiset. */
  lemma MultisetRemove(t: seq<ItemAct>, j: nat)
    requires j < |t|
    ensures multiset(t) == multiset(t[..j] + t[j + 1..]) + multiset{t[j]}
  {
    assert t == t[..j] + [t[j]] + t[j + 1..];
  }

  lemma MultisetCancel(a: multiset<ItemAct>, b: multiset<ItemAct>, x: ItemAct)
    requires a + multiset{x} == b + multiset{x}
    ensures a == b
  {
    forall y ensures a[y] == b[y] {
      assert (a + multiset{x})[y] == a[y] + multiset{x}[y];
      assert (b + multiset{x})[y] == b[y] + multiset{x}[y];
    }
  }

  lemma IndexOf(t: seq<ItemAct>, x: ItemAct) returns (j: nat)
    requires x in multiset(t)
    ensures j < |t| && t[j] == x
  {
    j :| 0 <= j < |t| && t[j] == x;
  }

  /** Taking one act out of a sequence takes its sats out of the sum. */
  lemma SumSatsAt(t: seq<ItemAct>, j: nat)
    requires j < |t|
    ensures SumSats(t) == t[j].sats + SumSats(t[..j] + t[j + 1..])
  {
    var pre, suffix, post := t[..j], t[j..], t[j + 1..];
    assert pre + suffix == t;
    SumSatsConcat(pre, suffix);
    assert suffix[0] == t[j] && suffix[1..] == post;
    assert SumSats(suffix) == t[j].sats + SumSats(post);
    SumSatsConcat(pre, post);
  }

  /** Matching the first act of `s` with an equal act of `t` leaves two lists with equal multisets. */
  lemma MatchFirst(s: seq<ItemAct>, t: seq<ItemAct>) returns (j: nat)
    requires s != [] && multiset(s) == multiset(t)
    ensures j < |t| && t[j] == s[0]
    ensures multiset(s[1..]) == multiset(t[..j] + t[j + 1..])
  {
    assert s == [s[0]] + s[1..];
    assert multiset(s) == multiset(s[1..]) + multiset{s[0]};
    j := IndexOf(t, s[0]);
    MultisetRemove(t, j);
    MultisetCancel(multiset(s[1..]), multiset(t[..j] + t[j + 1..]), s[0]);
  }

  /** `sum` does not depend on the order of the rows it adds up. */
  lemma {:induction false} SumSatsPermutation(s: seq<ItemAct>, t: seq<ItemAct>)
    requires multiset(s) == multiset(t)
    ensures SumSats(s) == SumSats(t)
    decreases |s|
  {
    if s != [] {
      var j := MatchFirst(s, t);
      SumSatsAt(t, j);
      SumSatsPermutation(s[1..], t[..j] + t[j + 1..]);
    }
  }

  /** `MAX(...)` over a non-empty group. */
  function MaxOf(s: seq<int>): (m: int)
    requires |s| > 0
    ensures m in s
    ensures forall x :: x in s ==> x <= m
  {
    if |s| == 1 then s[0]
    else
      var rest := MaxOf(s[1..]);
      assert s == [s[0]] + s[1..];
      if s[0] >= rest then s[0] else rest
  }

  function ActTimes(acts: seq<ItemAct>): (t: seq<int>)
    ensures |t| == |acts|
    ensures forall i :: 0 <= i < |acts| ==> t[i] == acts[i].createdAt
  {
    seq(|acts|, i requires 0 <= i < |acts| => acts[i].createdAt)
  }

  function VoteRow(i: Item, q: seq<ItemAct>): Row
    requires |q| > 0
  {
    Row(NatToString(i.id), MaxOf(ActTimes(q)), Some(SumSats(q)), Votification)
  }

  /** An item of `me`'s with at least one qualifying act. */
  predicate Earned(db: Tables, me: nat, time: int, i: Item)
  {
    i.userId == me && |QualifyingActs(db.acts, i.id, me, time)| > 0
  }

  /** The Votification selection: one group per item row, before its `LIMIT`. */
  function VoteRows(db: Tables, from: seq<Item>, me: nat, time: int): (rs: seq<Row>)
    ensures |rs| <= |from|
    ensures forall r :: r in rs ==> r.kind == Votification && r.earnedSats.Some?
  {
    if from == [] then []
    else
      var q := QualifyingActs(db.acts, from[0].id, me, time);
      (if Earned(db, me, time, from[0]) then [VoteRow(from[0], q)] else [])
      + VoteRows(db, from[1..], me, time)
  }

  lemma {:induction false} VoteRowsExactly(db: Tables, from: seq<Item>, me: nat, time: int, r: Row)
    ensures r in VoteRows(db, from, me, time)
        <==> exists i :: i in from && Earned(db, me, time, i)
                         && r == VoteRow(i, QualifyingActs(db.acts, i.id, me, time))
  {
    if from != [] {
      var x, tail := from[0], from[1..];
      var head := if Earned(db, me, time, x) then [VoteRow(x, QualifyingActs(db.acts, x.id, me, time))] else [];
      var rest := VoteRows(db, tail, me, time);
      assert VoteRows(db, from, me, time) == head + rest;
      VoteRowsExactly(db, tail, me, time, r);
      if r in head {
        assert x in from;
      } else if r in rest {
        var i :| i in tail && Earned(db, me, time, i) && r == VoteRow(i, QualifyingActs(db.acts, i.id, me, time));
        assert i in from;
      } else {
        forall i | i in from && Earned(db, me, time, i)
          ensures r != VoteRow(i, QualifyingActs(db.acts, i.id, me, time))
        {
          if i != x {
            assert i in tail;
          }
        }
      }
    }
  }

  /**
   * A Votification row sums the sats of all qualifying acts on its item and
   * carries the time of the latest one.
   */
  lemma VoteRowAggregates(db: Tables, me: nat, time: int, i: Item)
    requires Earned(db, me, time, i)
    ensures var q := QualifyingActs(db.acts, i.id, me, time);
            var r := VoteRow(i, q);
            && r.earnedSats == Some(SumSats(q))
            && (forall a :: multiset(q)[a] == if a.itemId == i.id && Qualifies(a, me, time) then multiset(db.acts)[a] else 0)
            && (forall a :: a in db.acts && a.itemId == i.id && Qualifies(a, me, time) ==> a.createdAt <= r.sortTime)
            && (exists a :: a in q && a.createdAt == r.sortTime)
  {
    var q := QualifyingActs(db.acts, i.id, me, time);
    var t := ActTimes(q);
    forall a: ItemAct ensures multiset(q)[a] == if a.itemId == i.id && Qualifies(a, me, time) then multiset(db.acts)[a] else 0 {
      QualifyingActsCount(db.acts, i.id, me, time, a);
    }
    forall a | a in db.acts && a.itemId == i.id && Qualifies(a, me, time)
      ensures a.createdAt <= MaxOf(t)
    {
      var k :| 0 <= k < |q| && q[k] == a;
      assert t[k] in t;
    }
    var k :| 0 <= k < |t| && t[k] == MaxOf(t);
    assert q[k] in q;
  }

  /** A Votification row carries the time of a qualifying act, so none is later than the snapshot. */
  lemma {:induction false} VoteRowsNoLater(db: Tables, from: seq<Item>, me: nat, time: int)
    ensures forall r :: r in VoteRows(db, from, me, time) ==> r.sortTime <= time
  {
    if from != [] {
      VoteRowsNoLater(db, from[1..], me, time);
      if Earned(db, me, time, from[0]) {
        var q := QualifyingActs(db.acts, from[0].id, me, time);
        var t := ActTimes(q);
        var k :| 0 <= k < |t| && t[k] == MaxOf(t);
        assert q[k] in q;
      }
    }
  }

  /** With item ids a primary key, each item yields at most one Votification row. */
  lemma {:induction false} VoteRowsOnePerItem(db: Tables, from: seq<Item>, me: nat, time: int)
    requires UniqueItemIds(from)
    ensures var rows := VoteRows(db, from, me, time);
            forall a, b :: 0 <= a < b < |rows| ==> rows[a].id != rows[b].id
  {
    if from != [] {
      var rest := VoteRows(db, from[1..], me, time);
      assert UniqueItemIds(from[1..]) by {
        forall x, y | 0 <= x < y < |from[1..]| ensures from[1..][x].id != from[1..][y].id {
          assert from[1..][x] == from[x + 1] && from[1..][y] == from[y + 1];
        }
      }
      VoteRowsOnePerItem(db, from[1..], me, time);
      forall b | 0 <= b < |rest| ensures rest[b].id != NatToString(from[0].id) {
        VoteRowsExactly(db, from[1..], me, time, rest[b]);
        var i :| i in from[1..] && Earned(db, me, time, i)
                 && rest[b] == VoteRow(i, QualifyingActs(db.acts, i.id, me, time));
        var k :| 0 <= k < |from[1..]| && from[1..][k] == i;
        assert from[k + 1] == i;
        NatToStringInjective(i.id, from[0].id);
      }
    }
  }

  // ---------------------------------------------------------------- Mention

  /**
   * A mention of `me`, no later than `time`, in an item `me` did not write
   * and that does not answer `me` (a top-level item has no parent to check).
   */
  predicate MentionQualifies(items: seq<Item>, me: nat, time: int, m: MentionRecord)
  {
    && m.userId == me
    && m.createdAt <= time
    && FindItem(items, m.itemId).Some?
    && FindItem(items, m.itemId).value.userId != me
    && (Parent(items, FindItem(items, m.itemId).value).None?
        || Parent(items, FindItem(items, m.itemId).value).value.userId != me)
  }

  /** A user is mentioned at most once per item. */
  ghost predicate UniqueMentions(from: seq<MentionRecord>)
  {
    forall i, j :: 0 <= i < j < |from| ==> from[i].itemId != from[j].itemId || from[i].userId != from[j].userId
  }

  function MentionRow(m: MentionRecord): Row
  {
    Row(NatToString(m.itemId), m.createdAt, None, Mention)
  }

  /** The Mention selection over the rows `from` of "Mention", before its `LIMIT`. */
  function MentionRows(items: seq<Item>, from: seq<MentionRecord>, me: nat, time: int): (rs: seq<Row>)
    ensures |rs| <= |from|
    ensures forall r :: r in rs ==> r.kind == Mention && r.earnedSats.None? && r.sortTime <= time
  {
    if from == [] then []
    else (if MentionQualifies(items, me, time, from[0]) then [MentionRow(from[0])] else [])
         + MentionRows(items, from[1..], me, time)
  }

  lemma {:induction false} MentionRowsExactly(items: seq<Item>, from: seq<MentionRecord>, me: nat, time: int, r: Row)
    ensures r in MentionRows(items, from, me, time)
        <==> exists m :: m in from && MentionQualifies(items, me, time, m) && r == MentionRow(m)
  {
    if from != [] {
      MentionRowsExactly(items, from[1..], me, time, r);
      assert from == [from[0]] + from[1..];
    }
  }

  /** With one mention per user and item, each item yields at most one Mention row. */
  lemma {:induction false} MentionRowsOnePerItem(items: seq<Item>, from: seq<MentionRecord>, me: nat, time: int)
    requires UniqueMentions(from)
    ensures var rows := MentionRows(items, from, me, time);
            forall a, b :: 0 <= a < b < |rows| ==> rows[a].id != rows[b].id
  {
    if from != [] {
      var rest := MentionRows(items, from[1..], me, time);
      assert UniqueMentions(from[1..]) by {
        forall x, y | 0 <= x < y < |from[1..]|
          ensures from[1..][x].itemId != from[1..][y].itemId || from[1..][x].userId != from[1..][y].userId
        {
          assert from[1..][x] == from[x + 1] && from[1..][y] == from[y + 1];
        }
      }
      MentionRowsOnePerItem(items, from[1..], me, time);
      if MentionQualifies(items, me, time, from[0]) {
        forall b | 0 <= b < |rest| ensures rest[b].id != NatToString(from[0].itemId) {
          MentionRowsExactly(items, from[1..], me, time, rest[b]);
          var m :| m in from[1..] && MentionQualifies(items, me, time, m) && rest[b] == MentionRow(m);
          var k :| 0 <= k < |from[1..]| && from[1..][k] == m;
          assert from[k + 1] == m;
          NatToStringInjective(m.itemId, from[0].itemId);
        }
      }
    }
  }

  /**
   * No Mention row names an item `me` wrote, nor an item whose parent `me`
   * wrote: those are self-notifications or already Replies.
   */
  lemma MentionNeverSelf(db: Tables, me: nat, time: int, i: Item, r: Row)
    requires UniqueItemIds(db.items) && i in db.items
    requires i.userId == me || (Parent(db.items, i).Some? && Parent(db.items, i).value.userId == me)
    requires r in MentionRows(db.items, db.mentions, me, time)
    ensures r.id != NatToString(i.id)
  {
    MentionRowsExactly(db.items, db.mentions, me, time, r);
    var m :| m in db.mentions && MentionQualifies(db.items, me, time, m) && r == MentionRow(m);
    NatToStringInjective(m.itemId, i.id);
    if m.itemId == i.id {
      FindItemUnique(db.items, i);
    }
  }

  // ---------------------------------------------------------------- Invitification

  /** `users` rows created through invite `inv` no later than `time`. */
  function JoinTimes(users: seq<Account>, inv: Invite, time: int): (t: seq<int>)
    ensures forall x :: x in t <==> exists u :: u in users && u.inviteId == Some(inv.id)
                                              && u.createdAt <= time && u.createdAt == x
  {
    if users == [] then []
    else
      var rest := JoinTimes(users[1..], inv, time);
      assert users == [users[0]] + users[1..];
      (if users[0].inviteId == Some(inv.id) && users[0].createdAt <= time then [users[0].createdAt] else [])
      + rest
  }

  /** `"Invite".id` is the primary key of "Invite". */
  ghost predicate UniqueInviteIds(from: seq<Invite>)
  {
    forall i, j :: 0 <= i < j < |from| ==> from[i].id != from[j].id
  }

  function InviteRow(inv: Invite, t: seq<int>): Row
    requires |t| > 0
  {
    Row(inv.id, MaxOf(t), None, Invitification)
  }

  /** The Invitification selection: one group per invite of `me`'s with a join; it has no `LIMIT`. */
  function InviteRows(users: seq<Account>, from: seq<Invite>, me: nat, time: int): (rs: seq<Row>)
    ensures |rs| <= |from|
    ensures forall r :: r in rs ==> r.kind == Invitification && r.earnedSats.None? && r.sortTime <= time
  {
    if from == [] then []
    else
      var t := JoinTimes(users, from[0], time);
      (if from[0].userId == me && |t| > 0 then [InviteRow(from[0], t)] else [])
      + InviteRows(users, from[1..], me, time)
  }

  lemma {:induction false} InviteRowsExactly(users: seq<Account>, from: seq<Invite>, me: nat, time: int, r: Row)
    ensures r in InviteRows(users, from, me, time)
        <==> exists inv :: inv in from && inv.userId == me && |JoinTimes(users, inv, time)| > 0
                           && r == InviteRow(inv, JoinTimes(users, inv, time))
  {
    if from != [] {
      InviteRowsExactly(users, from[1..], me, time, r);
      assert from == [from[0]] + from[1..];
    }
  }

  /** With invite ids a primary key, each invite yields at most one Invitification row. */
  lemma {:induction false} InviteRowsOnePerInvite(users: seq<Account>, from: seq<Invite>, me: nat, time: int)
    requires UniqueInviteIds(from)
    ensures var rows := InviteRows(users, from, me, time);
            forall a, b :: 0 <= a < b < |rows| ==> rows[a].id != rows[b].id
  {
    if from != [] {
      var rest := InviteRows(users, from[1..], me, time);
      assert UniqueInviteIds(from[1..]) by {
        forall x, y | 0 <= x < y < |from[1..]| ensures from[1..][x].id != from[1..][y].id {
          assert from[1..][x] == from[x + 1] && from[1..][y] == from[y + 1];
        }
      }
      InviteRowsOnePerInvite(users, from[1..], me, time);
      forall b | 0 <= b < |rest| ensures rest[b].id != from[0].id {
        InviteRowsExactly(users, from[1..], me, time, rest[b]);
        var inv :| && inv in from[1..] && inv.userId == me && |JoinTimes(users, inv, time)| > 0
                   && rest[b] == InviteRow(inv, JoinTimes(users, inv, time));
        var k :| 0 <= k < |from[1..]| && from[1..][k] == inv;
        assert from[k + 1] == inv;
      }
    }
  }

  /** An Invitification row is stamped with the latest qualifying join. */
  lemma InviteRowLatestJoin(users: seq<Account>, inv: Invite, time: int, u: Account)
    requires u in users && u.inviteId == Some(inv.id) && u.createdAt <= time
    ensures |JoinTimes(users, inv, time)| > 0
    ensures u.createdAt <= InviteRow(inv, JoinTimes(users, inv, time)).sortTime <= time
    ensures exists v :: && v in users && v.inviteId == Some(inv.id) && v.createdAt <= time
                        && v.createdAt == InviteRow(inv, JoinTimes(users, inv, time)).sortTime
  {
    var t := JoinTimes(users, inv, time);
    assert u.createdAt in t;
    assert MaxOf(t) in t;
  }

  // ---------------------------------------------------------------- union and page

  /** The four selections at snapshot `time`, each before its `LIMIT`. */
  datatype Selections = Selections(replies: seq<Row>, votes: seq<Row>, mentions: seq<Row>, invites: seq<Row>)

  function Select(db: Tables, me: nat, time: int): (s: Selections)
    ensures forall r :: r in AllRows(s) ==> r.sortTime <= time
  {
    VoteRowsNoLater(db, db.items, me, time);
    Selections(ReplyRows(db.items, db.items, me, time),
               VoteRows(db, db.items, me, time),
               MentionRows(db.items, db.mentions, me, time),
               InviteRows(db.users, db.invites, me, time))
  }

  /** The plain union of the selections. */
  function AllRows(sel: Selections): seq<Row>
  {
    sel.replies + sel.votes + sel.mentions + sel.invites
  }

  /** The union as the query builds it: Reply, Votification and Mention capped at `k` rows. */
  function CappedRows(sel: Selections, k: nat): (r: seq<Row>)
    ensures |r| <= 3 * k + |sel.invites|
  {
    Cap(sel.replies, k) + Cap(sel.votes, k) + Cap(sel.mentions, k) + sel.invites
  }

  /** The whole feed at snapshot `time`, in feed order: the reference the pages are cut from. */
  function Feed(db: Tables, me: nat, time: int): (f: seq<Row>)
    ensures |f| == |AllRows(Select(db, me, time))|
    ensures forall r :: r in f ==> r.sortTime <= time
  {
    var rows := AllRows(Select(db, me, time));
    SortMultiset(rows);
    assert forall r :: r in Sort(rows) ==> r in multiset(rows);
    Sort(rows)
  }

  /** The feed lists every selected row exactly as often as it is selected, newest first. */
  lemma FeedSorted(db: Tables, me: nat, time: int)
    ensures Sorted(Feed(db, me, time))
    ensures multiset(Feed(db, me, time)) == multiset(AllRows(Select(db, me, time)))
  {
    SortIsSorted(AllRows(Select(db, me, time)));
    SortMultiset(AllRows(Select(db, me, time)));
  }

  /** How many rows each capped child selection keeps: `LIMIT + offset`. */
  function Reach(c: Cursor, limit: PageSize): (k: nat)
    ensures k >= limit && k >= c.offset
  {
    c.offset + limit
  }

  /**
   * The page the query returns: the union with the child selections capped
   * at `Reach`, `ORDER BY "sortTime" DESC OFFSET offset LIMIT limit`.
   */
  function PageRows(db: Tables, me: nat, c: Cursor, limit: PageSize): (page: seq<Row>)
    ensures |page| <= limit
  {
    Window(Sort(CappedRows(Select(db, me, c.time), Reach(c, limit))), c.offset, limit)
  }

  /** The page is listed in feed order, so newest first. */
  lemma PageSorted(db: Tables, me: nat, c: Cursor, limit: PageSize)
    ensures Sorted(PageRows(db, me, c, limit))
    ensures var page := PageRows(db, me, c, limit);
            forall i, j :: 0 <= i < j < |page| ==> page[i].sortTime >= page[j].sortTime
  {
    var rows := CappedRows(Select(db, me, c.time), Reach(c, limit));
    SortIsSorted(rows);
    SortedWindow(Sort(rows), c.offset, limit);
  }

  /**
   * The capping of the child selections at `LIMIT + offset` is invisible:
   * the page equals the page cut from the uncapped feed.
   */
  lemma CapsPreservePage(db: Tables, me: nat, c: Cursor, limit: PageSize)
    ensures PageRows(db, me, c, limit) == Window(Feed(db, me, c.time), c.offset, limit)
  {
    var sel := Select(db, me, c.time);
    CapsPreserveWindow(sel.replies, sel.votes, sel.mentions, sel.invites, c.offset, limit, Reach(c, limit));
  }

  // ---------------------------------------------------------------- cursor

  /** `decodeCursor`: no token starts a session at the current time. */
  function Decode(token: Option<Cursor>, now: int): (c: Cursor)
    ensures token.None? ==> c == Cursor(now, 0)
    ensures token.Some? ==> c == token.value
  {
    match token
    case None => Cursor(now, 0)
    case Some(c) => c
  }

  /** `nextCursorEncoded`: the same pinned time, one page further. */
  function Next(c: Cursor, limit: PageSize): (n: Cursor)
    ensures n.time == c.time && n.offset == c.offset + limit
  {
    Cursor(c.time, c.offset + limit)
  }

  /** A continuation cursor is offered exactly when the page is full. */
  function Continuation(page: seq<Row>, c: Cursor, limit: PageSize): (r: Option<Cursor>)
    ensures r.Some? <==> |page| == limit
    ensures r.Some? ==> r.value == Next(c, limit)
  {
    if |page| == limit then Some(Next(c, limit)) else None
  }

  /**
   * The rows a client collects by following cursors for at most `n`
   * requests from `c`, where a request at cursor `c` returns `pageAt(c)`.
   */
  function Follow(pageAt: Cursor -> seq<Row>, c: Cursor, limit: PageSize, n: nat): seq<Row>
    decreases n
  {
    if n == 0 then []
    else
      var page := pageAt(c);
      match Continuation(page, c, limit)
      case None => page
      case Some(c') => page + Follow(pageAt, c', limit, n - 1)
  }

  /** The rows a client collects from the resolver by following cursors for at most `n` requests from `c`. */
  function Collect(db: Tables, me: nat, c: Cursor, limit: PageSize, n: nat): (r: seq<Row>)
    ensures |r| <= n * limit
  {
    FollowBound(c0 => PageRows(db, me, c0, limit), c, limit, n);
    Follow(c0 => PageRows(db, me, c0, limit), c, limit, n)
  }

  /** Requests that each return at most `limit` rows yield at most `n * limit` rows in `n` requests. */
  lemma {:induction false} FollowBound(pageAt: Cursor -> seq<Row>, c: Cursor, limit: PageSize, n: nat)
    requires forall c0: Cursor :: |pageAt(c0)| <= limit
    ensures |Follow(pageAt, c, limit, n)| <= n * limit
    decreases n
  {
    if n != 0 {
      FollowBound(pageAt, Next(c, limit), limit, n - 1);
      assert n * limit == limit + (n - 1) * limit;
    }
  }

  /**
   * When every request at the pinned time returns the window of one feed
   * `f` at the cursor's offset, following cursors reads `f` window by window.
   */
  lemma {:induction false} FollowIsPages(pageAt: Cursor -> seq<Row>, f: seq<Row>, c: Cursor, limit: PageSize, n: nat)
    requires forall c0: Cursor :: c0.time == c.time ==> pageAt(c0) == Window(f, c0.offset, limit)
    ensures Follow(pageAt, c, limit, n) == Pages(f, c.offset, limit, n)
    decreases n
  {
    if n != 0 {
      var c' := Next(c, limit);
      FollowIsPages(pageAt, f, c', limit, n - 1);
      PagesStep(f, c.offset, limit, n, c'.offset);
    }
  }

  /**
   * No row is lost or repeated across pages: following the cursors from
   * offset `c.offset` yields the rest of the feed at the pinned time, and
   * the cursors run out within `n` requests when `n` pages can hold it.
   */
  lemma PagesCoverFeed(db: Tables, me: nat, c: Cursor, limit: PageSize, n: nat)
    requires |Drop(Feed(db, me, c.time), c.offset)| < n * limit
    ensures Collect(db, me, c, limit, n) == Drop(Feed(db, me, c.time), c.offset)
  {
    var f := Feed(db, me, c.time);
    forall c0: Cursor | c0.time == c.time
      ensures PageRows(db, me, c0, limit) == Window(f, c0.offset, limit)
    {
      CapsPreservePage(db, me, c0, limit);
    }
    FollowIsPages(c0 => PageRows(db, me, c0, limit), f, c, limit, n);
    PagesCover(f, c.offset, limit, n);
  }

  /**
   * A pagination session that starts without a token covers the whole feed
   * in `n = |feed| / limit + 1` requests.
   */
  lemma SessionCoversFeed(db: Tables, me: nat, now: int, limit: PageSize, n: nat)
    requires n == |Feed(db, me, now)| / limit + 1
    ensures Collect(db, me, Decode(None, now), limit, n) == Feed(db, me, now)
  {
    var f := Feed(db, me, now);
    Capacity(|f|, limit);
    assert Drop(f, 0) == f;
    PagesCoverFeed(db, me, Decode(None, now), limit, n);
  }

  /** `q + 1` pages of `limit` rows hold more than `len` rows when `q = len / limit`. */
  lemma Capacity(len: nat, limit: PageSize)
    ensures len < (len / limit + 1) * limit
  {
    var q := len / limit;
    assert len == q * limit + len % limit;
    assert (q + 1) * limit == q * limit + limit;
  }

  // ---------------------------------------------------------------- read state and resolver

  datatype Page = Page(lastChecked: Option<int>, cursor: Option<Cursor>, notifications: seq<Row>)

  datatype AuthError = NotLoggedIn

  /** The stored user row, reduced to the field this query reads and writes. */
  class UserRecord {
    const id: nat
    var checkedNotesAt: Option<int>

    constructor (id: nat, checkedNotesAt: Option<int>)
      ensures this.id == id && this.checkedNotesAt == checkedNotesAt
    {
      this.id := id;
      this.checkedNotesAt := checkedNotesAt;
    }

    /** Reads the previous stamp, then stamps `now` on first-page requests only. */
    method CheckNotes(offset: nat, now: int) returns (lastChecked: Option<int>)
      modifies this
      ensures lastChecked == old(checkedNotesAt)
      ensures checkedNotesAt == if offset == 0 then Some(now) else old(checkedNotesAt)
    {
      lastChecked := checkedNotesAt;
      if offset == 0 {
        checkedNotesAt := Some(now);
      }
    }
  }

  /**
   * `Query.notifications`. `me` is the session's user id, `user` the stored
   * row of that user; `decodeClock` and `stampClock` are the two readings of
   * the clock (the default cursor and the new `checkedNotesAt`).
   */
  method Notifications(token: Option<Cursor>, me: Option<nat>, user: UserRecord, db: Tables,
                       limit: PageSize, decodeClock: int, stampClock: int)
    returns (r: Result<Page, AuthError>)
    requires me.Some? ==> user.id == me.value
    modifies user
    ensures me.None? ==> r == Failure(NotLoggedIn) && user.checkedNotesAt == old(user.checkedNotesAt)
    ensures me.Some? ==>
              var c := Decode(token, decodeClock);
              var page := PageRows(db, me.value, c, limit);
              && r == Success(Page(old(user.checkedNotesAt), Continuation(page, c, limit), page))
              && user.checkedNotesAt == if c.offset == 0 then Some(stampClock) else old(user.checkedNotesAt)
  {
    var c := Decode(token, decodeClock);
    if me.None? {
      return Failure(NotLoggedIn);
    }
    var page := PageRows(db, me.value, c, limit);
    var lastChecked := user.CheckNotes(c.offset, stampClock);
    r := Success(Page(lastChecked, Continuation(page, c, limit), page));
  }

  // ---------------------------------------------------------------- type resolution

  /** The `type` column each selection writes, which `__resolveType` returns. */
  function TypeName(k: Kind): string
  {
    match k
    case Reply => "Reply"
    case Votification => "Votification"
    case Mention => "Mention"
    case Invitification => "Invitification"
  }

  /** The GraphQL type a `type` tag names, if any. */
  function KindNamed(name: string): (k: Option<Kind>)
    ensures k.Some? ==> TypeName(k.value) == name
  {
    if name == "Reply" then Some(Reply)
    else if name == "Votification" then Some(Votification)
    else if name == "Mention" then Some(Mention)
    else if name == "Invitification" then Some(Invitification)
    else None
  }

  /** Type dispatch recovers the kind of every row. */
  lemma ResolveTypeRoundTrip(k: Kind)
    ensures KindNamed(TypeName(k)) == Some(k)
  {
  }

  /** The detail lookup a row's fields resolve through. */
  datatype Detail = ItemDetail(itemId: string, mention: Option<bool>) | InviteDetail(inviteId: string)

  function ResolveDetail(r: Row): (d: Detail)
    ensures d.InviteDetail? <==> r.kind == Invitification
    ensures d.InviteDetail? ==> d.inviteId == r.id
    ensures d.ItemDetail? ==> d.itemId == r.id && (d.mention == if r.kind == Mention then Some(true) else None)
  {
    match r.kind
    case Invitification => InviteDetail(r.id)
    case Mention => ItemDetail(r.id, Some(true))
    case _ => ItemDetail(r.id, None)
  }
}
