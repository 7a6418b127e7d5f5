/**
 * The zap button of an item: the next tip it offers, the overlay text,
 * when it is disabled, the two walkthrough popovers, a short and a long
 * press, and the update of the client cache after an `act` returns.
 */
module Upvote {
  import opened Common
  import opened Decimal

  /** The signed-in user as `useMe` returns it. */
  datatype Me = Me(id: nat, sats: nat, tipDefault: Option<nat>, turboTipping: bool,
                   upvotePopover: bool, tipPopover: bool)

  /** The fields of the `item` prop the button reads; `path` is already split into ids. */
  datatype ItemProps = ItemProps(id: nat, mine: bool, fwdUserId: Option<nat>, deletedAt: Option<int>,
                                 meSats: Option<nat>, path: seq<nat>)

  // ---------------------------------------------------------------- next tip

  function Pow10(k: nat): (p: nat)
    ensures p >= 1
  {
    if k == 0 then 1 else 10 * Pow10(k - 1)
  }

  /** The user's tip default; an absent or zero default, or no user, tips one sat. */
  function TipBase(me: Option<Me>): (b: nat)
    ensures b > 0
    ensures me.Some? && me.value.tipDefault.Some? && me.value.tipDefault.value > 0 ==> b == me.value.tipDefault.value
    ensures me.None? || me.value.tipDefault.None? || me.value.tipDefault == Some(0) ==> b == 1
  {
    if me.Some? && me.value.tipDefault.Some? && me.value.tipDefault.value > 0
    then me.value.tipDefault.value else 1
  }

  /** Where the turbo loop stops: `b` multiplied by 10 until it exceeds `m`. */
  function Raise(b: nat, m: nat): (r: nat)
    requires b > 0
    ensures r > m && r >= b
    decreases if b <= m then m - b + 1 else 0
  {
    if m >= b then Raise(b * 10, m) else b
  }

  /** How many times the turbo loop multiplies. */
  function Exponent(b: nat, m: nat): nat
    requires b > 0
    decreases if b <= m then m - b + 1 else 0
  {
    if m >= b then 1 + Exponent(b * 10, m) else 0
  }

  /** The loop stops at the least power-of-ten multiple `b * 10^k` of `b` above `m`. */
  lemma {:induction false} RaiseIsLeastPower(b: nat, m: nat)
    requires b > 0
    ensures Raise(b, m) == b * Pow10(Exponent(b, m))
    ensures forall j :: 0 <= j < Exponent(b, m) ==> b * Pow10(j) <= m
    decreases if b <= m then m - b + 1 else 0
  {
    if m >= b {
      var e := Exponent(b * 10, m);
      RaiseIsLeastPower(b * 10, m);
      PowShift(b, e);
      forall j | 0 <= j < Exponent(b, m) ensures b * Pow10(j) <= m {
        if j > 0 {
          PowShift(b, j - 1);
        }
      }
    }
  }

  /** One more multiplication by ten is one more power of ten. */
  lemma PowShift(b: nat, e: nat)
    ensures b * 10 * Pow10(e) == b * Pow10(e + 1)
  {
    assert Pow10(e + 1) == 10 * Pow10(e);
    assert b * (10 * Pow10(e)) == b * 10 * Pow10(e);
  }

  /** The next tip: the base, or with turbo tipping what lifts `meSats` to the next power of ten. */
  function TipFor(me: Option<Me>, meSats: nat): (sats: nat)
    ensures sats > 0
  {
    var b := TipBase(me);
    if me.Some? && me.value.turboTipping then Raise(b, meSats) - meSats else b
  }

  /** Without turbo tipping the tip is the base. */
  lemma PlainTip(me: Option<Me>, meSats: nat)
    requires me.None? || !me.value.turboTipping
    ensures TipFor(me, meSats) == TipBase(me)
    ensures me.None? || me.value.tipDefault.None? || me.value.tipDefault == Some(0) ==> TipFor(me, meSats) == 1
    ensures me.Some? && me.value.tipDefault.Some? && me.value.tipDefault.value > 0
            ==> TipFor(me, meSats) == me.value.tipDefault.value
  {
  }

  /**
   * With turbo tipping, the tip tops the zapped total up to the least
   * power-of-ten multiple of the base above it.
   */
  lemma TurboTip(me: Option<Me>, meSats: nat)
    requires me.Some? && me.value.turboTipping
    ensures var k := Exponent(TipBase(me), meSats);
            && meSats + TipFor(me, meSats) == TipBase(me) * Pow10(k)
            && meSats < TipBase(me) * Pow10(k)
            && forall j :: 0 <= j < k ==> TipBase(me) * Pow10(j) <= meSats
  {
    RaiseIsLeastPower(TipBase(me), meSats);
  }

  /** What the user has zapped the item so far: the cached total, absent counting as 0, plus the pending sats. */
  function ShownMeSats(item: Option<ItemProps>, pendingSats: nat): (m: nat)
    ensures m >= pendingSats
    ensures m == pendingSats <==> item.None? || OrZero(item.value.meSats) == 0
  {
    (if item.Some? then OrZero(item.value.meSats) else 0) + pendingSats
  }

  // ---------------------------------------------------------------- overlay text

  /** The tip in sats, with a plural `s` only for more than one sat. */
  function OverlayText(sats: nat): (t: string)
    ensures |t| >= 5
    ensures t == "1 sat" <==> sats == 1
    ensures t[|t| - 1] == 's' <==> sats > 1
  {
    var digits := NatToString(sats);
    var t := digits + " sat" + (if sats > 1 then "s" else "");
    assert sats == 1 ==> digits == "1";
    assert sats == 0 ==> t[0] == '0';
    assert sats > 1 ==> |t| > 5;
    t
  }

  /** The length of the run of digits that starts `t`. */
  function DigitRun(t: string): (k: nat)
    ensures k <= |t| && AllDigits(t[..k])
    ensures k < |t| ==> !IsDigit(t[k])
  {
    if t == [] || !IsDigit(t[0]) then 0
    else
      var k := 1 + DigitRun(t[1..]);
      assert t[..k] == [t[0]] + t[1..][..k - 1];
      k
  }

  /** Reads an overlay text back: a numeral, then " sat" or " sats". */
  function OverlaySats(t: string): Option<nat>
  {
    var k := DigitRun(t);
    if k > 0 && (t[k..] == " sat" || t[k..] == " sats") then Some(ParseNat(t[..k])) else None
  }

  lemma {:induction false} DigitRunOf(s: string, r: string)
    requires AllDigits(s) && (r == [] || !IsDigit(r[0]))
    ensures DigitRun(s + r) == |s|
    decreases |s|
  {
    if s != [] {
      assert (s + r)[1..] == s[1..] + r;
      DigitRunOf(s[1..], r);
    }
  }

  /** The overlay names exactly the tip it offers. */
  lemma OverlayRoundTrip(sats: nat)
    ensures OverlaySats(OverlayText(sats)) == Some(sats)
  {
    var digits := NatToString(sats);
    var rest := " sat" + (if sats > 1 then "s" else "");
    assert OverlayText(sats) == digits + rest;
    DigitRunOf(digits, rest);
    assert (digits + rest)[..|digits|] == digits;
    assert (digits + rest)[|digits|..] == rest;
    ParseNatToString(sats);
  }

  // ---------------------------------------------------------------- the displayed values

  /**
   * The memoised display values: the total the user has zapped including
   * pending sats, the next tip (the turbo loop runs on a local) and its
   * overlay text.
   */
  method Display(item: Option<ItemProps>, pendingSats: nat, me: Option<Me>)
    returns (meSats: nat, sats: nat, overlayText: string)
    ensures meSats == ShownMeSats(item, pendingSats)
    ensures sats == TipFor(me, meSats)
    ensures overlayText == OverlayText(sats)
  {
    meSats := (if item.Some? then OrZero(item.value.meSats) else 0) + pendingSats;
    sats := TipBase(me);
    if me.Some? && me.value.turboTipping {
      var raiseTip := sats;
      while meSats >= raiseTip
        invariant raiseTip > 0
        invariant Raise(raiseTip, meSats) == Raise(sats, meSats)
        decreases meSats - raiseTip
      {
        raiseTip := raiseTip * 10;
      }
      sats := raiseTip - meSats;
    }
    overlayText := OverlayText(sats);
  }

  /** The user cannot zap their own item, an item forwarded to them, or a deleted one. */
  predicate Disabled(item: Option<ItemProps>, me: Option<Me>)
    ensures Disabled(item, me) ==> item.Some?
    ensures item.Some? && (item.value.mine || item.value.deletedAt.Some?) ==> Disabled(item, me)
    ensures me.None? ==> (Disabled(item, me) <==> item.Some? && (item.value.mine || item.value.deletedAt.Some?))
    ensures me.Some? ==> (Disabled(item, me) <==> item.Some? && (item.value.mine || item.value.deletedAt.Some?
                                                               || item.value.fwdUserId == Some(me.value.id)))
  {
    item.Some? &&
    (item.value.mine || (me.Some? && item.value.fwdUserId == Some(me.value.id)) || item.value.deletedAt.Some?)
  }

  /** `pendingSats` after a short press. */
  function PressedPending(item: Option<ItemProps>, me: Me, pendingSats: nat): (p: nat)
    ensures p >= pendingSats
    ensures p > pendingSats <==> item.Some? && !Disabled(item, Some(me))
  {
    if item.None? || Disabled(item, Some(me)) then pendingSats
    else pendingSats + TipFor(Some(me), ShownMeSats(item, pendingSats))
  }

  /** A short press adds a tip exactly when there is an item the user may zap. */
  lemma PressAddsTip(item: Option<ItemProps>, me: Me, pendingSats: nat)
    ensures PressedPending(item, me, pendingSats) >= pendingSats
    ensures PressedPending(item, me, pendingSats) == pendingSats
            <==> item.None? || item.value.mine || item.value.fwdUserId == Some(me.id) || item.value.deletedAt.Some?
  {
  }

  // ---------------------------------------------------------------- walkthrough popovers

  /** The popover flag after a request, and whether the popover is recorded as seen. */
  datatype Step = Step(show: bool, record: bool)

  /** Whether a user who has or has not seen a popover is offered it: not seen yet, and has sats. */
  predicate Eligible(seen: bool, me: Me)
  {
    !seen && me.sats != 0
  }

  /** `setVoteShow(yes)` / `setTipShow(yes)` for a signed-in user. */
  function PopoverStep(show: bool, yes: bool, eligible: bool): (s: Step)
    ensures s.record <==> show && !s.show
    ensures s.show && !show ==> yes && eligible
  {
    if yes && eligible then Step(true, false)
    else if show && !yes then Step(false, true)
    else Step(show, false)
  }

  /** Repeating a request changes nothing and records nothing. */
  lemma PopoverStepIdempotent(show: bool, yes: bool, eligible: bool)
    ensures var s := PopoverStep(show, yes, eligible);
            PopoverStep(s.show, yes, eligible) == Step(s.show, false)
  {
  }

  /** A hide request always leaves the popover hidden; a show request shows it iff eligible or already shown. */
  lemma PopoverStepOutcome(show: bool, yes: bool, eligible: bool)
    ensures !yes ==> !PopoverStep(show, yes, eligible).show
    ensures yes ==> (PopoverStep(show, yes, eligible).show <==> show || eligible)
  {
  }

  datatype Walkthrough = UpvotePopoverSeen | TipPopoverSeen

  /**
   * The button's state: the two popover flags, the parent's `pendingSats`,
   * and the `setWalkthrough` mutations sent so far.
   */
  class UpVote {
    var voteShow: bool
    var tipShow: bool
    var pendingSats: nat
    var walkthrough: seq<Walkthrough>

    constructor (pendingSats: nat)
      ensures !voteShow && !tipShow && this.pendingSats == pendingSats && walkthrough == []
    {
      voteShow := false;
      tipShow := false;
      this.pendingSats := pendingSats;
      walkthrough := [];
    }

    method SetVoteShow(me: Option<Me>, yes: bool)
      modifies this
      ensures me.None? ==> voteShow == old(voteShow) && walkthrough == old(walkthrough)
      ensures me.Some? ==>
                var s := PopoverStep(old(voteShow), yes, Eligible(me.value.upvotePopover, me.value));
                voteShow == s.show && walkthrough == old(walkthrough) + (if s.record then [UpvotePopoverSeen] else [])
      ensures tipShow == old(tipShow) && pendingSats == old(pendingSats)
    {
      if me.None? {
        return;
      }
      var showing := voteShow;
      if yes && !me.value.upvotePopover && me.value.sats != 0 {
        voteShow := true;
      }
      if showing && !yes {
        voteShow := false;
        walkthrough := walkthrough + [UpvotePopoverSeen];
      }
    }

    method SetTipShow(me: Option<Me>, yes: bool)
      modifies this
      ensures me.None? ==> tipShow == old(tipShow) && walkthrough == old(walkthrough)
      ensures me.Some? ==>
                var s := PopoverStep(old(tipShow), yes, Eligible(me.value.tipPopover, me.value));
                tipShow == s.show && walkthrough == old(walkthrough) + (if s.record then [TipPopoverSeen] else [])
      ensures voteShow == old(voteShow) && pendingSats == old(pendingSats)
    {
      if me.None? {
        return;
      }
      var showing := tipShow;
      if yes && !me.value.tipPopover && me.value.sats != 0 {
        tipShow := true;
      }
      if showing && !yes {
        tipShow := false;
        walkthrough := walkthrough + [TipPopoverSeen];
      }
    }

    /** A short press by a signed-in user: hide the vote popover once zapped, then add the next tip. */
    method ShortPress(item: Option<ItemProps>, me: Me)
      modifies this
      ensures pendingSats == PressedPending(item, me, old(pendingSats))
      ensures tipShow == old(tipShow)
      ensures var pressed := item.Some? && !Disabled(item, Some(me));
              var s := PopoverStep(old(voteShow), false, Eligible(me.upvotePopover, me));
              if pressed && ShownMeSats(item, old(pendingSats)) != 0
              then voteShow == s.show && walkthrough == old(walkthrough) + (if s.record then [UpvotePopoverSeen] else [])
              else voteShow == old(voteShow) && walkthrough == old(walkthrough)
    {
      if item.None? {
        return;
      }
      if Disabled(item, Some(me)) {
        return;
      }
      var meSats, sats, _ := Display(item, pendingSats, Some(me));
      if meSats != 0 {
        SetVoteShow(Some(me), false);
      }
      pendingSats := pendingSats + sats;
    }

    /** A long press hides the tip popover before the custom-amount dialog opens. */
    method LongPress(item: Option<ItemProps>, me: Option<Me>)
      modifies this
      ensures voteShow == old(voteShow) && pendingSats == old(pendingSats)
      ensures if item.Some? && !Disabled(item, me) && me.Some?
              then var s := PopoverStep(old(tipShow), false, Eligible(me.value.tipPopover, me.value));
                   tipShow == s.show && walkthrough == old(walkthrough) + (if s.record then [TipPopoverSeen] else [])
              else tipShow == old(tipShow) && walkthrough == old(walkthrough)
    {
      if item.None? {
        return;
      }
      if Disabled(item, me) {
        return;
      }
      SetTipShow(me, false);
    }

    /**
     * The `update` of the `act` mutation: the item's `sats` and `meSats`
     * grow by the zapped amount, the first zap of a user with enough sats
     * offers the vote popover and a later one the tip popover, and every
     * other id on the item's path gets the amount added to `commentSats`.
     */
    method ActUpdate(cache: ItemCache, item: ItemProps, me: Me, amount: nat)
      modifies this, cache
      ensures cache.items == AfterAct(old(cache.items), item, amount)
      ensures pendingSats == old(pendingSats)
      ensures var offered := item.id in old(cache.items) && amount <= me.sats;
              var first := offered && OrZero(old(cache.items)[item.id].meSats) == 0;
              && voteShow == (if first then PopoverStep(old(voteShow), true, Eligible(me.upvotePopover, me)).show
                              else old(voteShow))
              && tipShow == (if offered && !first then PopoverStep(old(tipShow), true, Eligible(me.tipPopover, me)).show
                             else old(tipShow))
              && walkthrough == old(walkthrough)
    {
      var id := item.id;
      if id in cache.items {
        if amount <= me.sats {
          if OrZero(cache.items[id].meSats) == 0 {
            SetVoteShow(Some(me), true);
          } else {
            SetTipShow(Some(me), true);
          }
        }
      }
      cache.CreditItem(id, amount);
      ghost var credited := cache.items;
      ghost var vote, tip, pending, seen := voteShow, tipShow, pendingSats, walkthrough;
      var i := 0;
      while i < |item.path|
        invariant 0 <= i <= |item.path|
        invariant voteShow == vote && tipShow == tip && pendingSats == pending && walkthrough == seen
        invariant cache.items == BumpAncestors(credited, item.path[..i], id, amount)
      {
        BumpStep(credited, item.path, i, id, amount);
        if item.path[i] != id {
          cache.AddCommentSats(item.path[i], amount);
        }
        i := i + 1;
      }
      assert item.path[..|item.path|] == item.path;
    }
  }

  // ---------------------------------------------------------------- the client cache

  /** A cached `Item` entity, reduced to the three counters the update touches. */
  datatype CachedItem = CachedItem(sats: Option<nat>, meSats: Option<nat>, commentSats: Option<nat>)

  /** `cache.modify` of an item's `sats` and `meSats`; an item not in the cache is left alone. */
  function Credit(m: map<nat, CachedItem>, id: nat, amount: nat): (r: map<nat, CachedItem>)
    ensures r.Keys == m.Keys
    ensures forall k :: k in m && k != id ==> r[k] == m[k]
    ensures id in m ==> && r[id].sats == Some(OrZero(m[id].sats) + amount)
                        && r[id].meSats == Some(OrZero(m[id].meSats) + amount)
                        && r[id].commentSats == m[id].commentSats
  {
    if id in m
    then m[id := m[id].(sats := Some(OrZero(m[id].sats) + amount), meSats := Some(OrZero(m[id].meSats) + amount))]
    else m
  }

  /** `cache.modify` of an item's `commentSats`. */
  function AddComment(m: map<nat, CachedItem>, id: nat, amount: nat): (r: map<nat, CachedItem>)
    ensures r.Keys == m.Keys
    ensures forall k :: k in m && k != id ==> r[k] == m[k]
    ensures id in m ==> && r[id].commentSats == Some(OrZero(m[id].commentSats) + amount)
                        && r[id].sats == m[id].sats && r[id].meSats == m[id].meSats
  {
    if id in m then m[id := m[id].(commentSats := Some(OrZero(m[id].commentSats) + amount))] else m
  }

  /** Adds the amount to the `commentSats` of every id on the path in turn, skipping the item's own id. */
  function BumpAncestors(m: map<nat, CachedItem>, path: seq<nat>, self: nat, amount: nat): (r: map<nat, CachedItem>)
    ensures r.Keys == m.Keys
    ensures self in m ==> r[self] == m[self]
    decreases |path|
  {
    if path == [] then m
    else
      var before := BumpAncestors(m, path[..|path| - 1], self, amount);
      var id := path[|path| - 1];
      if id == self then before else AddComment(before, id, amount)
  }

  /** One more id of the path: its entity gains the amount unless it is the item itself. */
  lemma BumpStep(m: map<nat, CachedItem>, path: seq<nat>, i: nat, self: nat, amount: nat)
    requires i < |path|
    ensures BumpAncestors(m, path[..i + 1], self, amount)
            == if path[i] == self then BumpAncestors(m, path[..i], self, amount)
               else AddComment(BumpAncestors(m, path[..i], self, amount), path[i], amount)
  {
    assert path[..i + 1][..i] == path[..i];
  }

  /** The cache after the whole update. */
  function AfterAct(m: map<nat, CachedItem>, item: ItemProps, amount: nat): (r: map<nat, CachedItem>)
    ensures r.Keys == m.Keys
    ensures forall k :: k in m && k != item.id && k !in item.path ==> r[k] == m[k]
  {
    OffPathUnchanged(Credit(m, item.id, amount), item.path, item.id, amount);
    BumpAncestors(Credit(m, item.id, amount), item.path, item.id, amount)
  }

  /** Walking the path leaves every entity whose id is not on it as it was. */
  lemma OffPathUnchanged(m: map<nat, CachedItem>, path: seq<nat>, self: nat, amount: nat)
    ensures forall k :: k in m && k !in path ==> BumpAncestors(m, path, self, amount)[k] == m[k]
  {
    forall k | k in m && k !in path
      ensures BumpAncestors(m, path, self, amount)[k] == m[k]
    {
      BumpAncestorsEffect(m, path, self, amount, k);
    }
  }

  /**
   * Walking the path adds the amount to an entity's `commentSats` once per
   * occurrence of its id, never to the item itself, and changes nothing else.
   */
  lemma {:induction false} BumpAncestorsEffect(m: map<nat, CachedItem>, path: seq<nat>, self: nat, amount: nat, k: nat)
    ensures k in BumpAncestors(m, path, self, amount) <==> k in m
    ensures k in m ==>
              var r := BumpAncestors(m, path, self, amount)[k];
              && r.sats == m[k].sats && r.meSats == m[k].meSats
              && r.commentSats == if k == self || multiset(path)[k] == 0 then m[k].commentSats
                                  else Some(OrZero(m[k].commentSats) + multiset(path)[k] * amount)
    decreases |path|
  {
    if path != [] {
      var init := path[..|path| - 1];
      var id := path[|path| - 1];
      var before := BumpAncestors(m, init, self, amount);
      BumpAncestorsEffect(m, init, self, amount, k);
      assert path == init + [id];
      assert multiset(path) == multiset(init) + multiset{id};
      if k in m {
        if id == self || k != id {
          assert BumpAncestors(m, path, self, amount)[k] == before[k];
        } else {
          var ms: multiset<nat> := multiset(init);
          var c := ms[k];
          assert BumpAncestors(m, path, self, amount)[k].commentSats == Some(OrZero(before[k].commentSats) + amount);
          assert (c + 1) * amount == c * amount + amount;
        }
      }
    }
  }

  /** With no repeated id on the path, every ancestor in the cache gains exactly the amount once. */
  lemma AncestorsCreditedOnce(m: map<nat, CachedItem>, path: seq<nat>, self: nat, amount: nat, k: nat)
    requires forall i, j :: 0 <= i < j < |path| ==> path[i] != path[j]
    requires k in m
    ensures k in BumpAncestors(m, path, self, amount)
    ensures BumpAncestors(m, path, self, amount)[k].commentSats
            == if k in path && k != self then Some(OrZero(m[k].commentSats) + amount) else m[k].commentSats
  {
    BumpAncestorsEffect(m, path, self, amount, k);
    DistinctCount(path, k);
  }

  lemma {:induction false} DistinctCount(s: seq<nat>, k: nat)
    requires forall i, j :: 0 <= i < j < |s| ==> s[i] != s[j]
    ensures multiset(s)[k] == if k in s then 1 else 0
    decreases |s|
  {
    if s != [] {
      var init := s[..|s| - 1];
      assert s == init + [s[|s| - 1]];
      assert multiset(s) == multiset(init) + multiset{s[|s| - 1]};
      DistinctCount(init, k);
      assert k in s ==> k in init || k == s[|s| - 1];
      assert k in init ==> k in s;
    }
  }

  /**
   * The zapped item itself: `sats` and `meSats` grow by exactly the amount
   * (from 0 when absent), its `commentSats` is untouched, and an item not
   * in the cache stays out of it.
   */
  lemma ActOnItem(m: map<nat, CachedItem>, item: ItemProps, amount: nat)
    ensures item.id in AfterAct(m, item, amount) <==> item.id in m
    ensures item.id in m ==>
              var r := AfterAct(m, item, amount)[item.id];
              && r.sats == Some(OrZero(m[item.id].sats) + amount)
              && r.meSats == Some(OrZero(m[item.id].meSats) + amount)
              && r.commentSats == m[item.id].commentSats
  {
    BumpAncestorsEffect(Credit(m, item.id, amount), item.path, item.id, amount, item.id);
  }

  /** The cache's entities by id. */
  class ItemCache {
    var items: map<nat, CachedItem>

    constructor (items: map<nat, CachedItem>)
      ensures this.items == items
    {
      this.items := items;
    }

    method CreditItem(id: nat, amount: nat)
      modifies this
      ensures items == Credit(old(items), id, amount)
    {
      if id in items {
        var e := items[id];
        items := items[id := e.(sats := Some(OrZero(e.sats) + amount), meSats := Some(OrZero(e.meSats) + amount))];
      }
    }

    method AddCommentSats(id: nat, amount: nat)
      modifies this
      ensures items == AddComment(old(items), id, amount)
    {
      if id in items {
        var e := items[id];
        items := items[id := e.(commentSats := Some(OrZero(e.commentSats) + amount))];
      }
    }
  }
}
