/** Permission updates, bit by bit. */
module PermissionMeaning {
  import opened Permissions

  lemma BitNumbers()
    ensures TRANSFER == 13 && MODIFY == 14 && COPY == 15 && EXPORT == 16 && MOVE == 19
  {
  }

  // ----- an object's masks -----

  /** Whether a bit is on after it was asked to be set or cleared, if it was. */
  predicate Wished(value: Mask, set_: bool, mask: Mask, b: nat) {
    if b in mask then set_ else b in value
  }

  predicate HasEvery(mask: Mask) {
    TRANSFER in mask && MODIFY in mask && COPY in mask && MOVE in mask
  }

  /** A request is granted to the owner alone, for bits the field has, and to give everyone export only
      where the object has it and its next owner would have every right. */
  lemma GrantedExactly(m: Masks, isOwner: bool, f: MaskField, set_: bool, mask: Mask)
    ensures Allowed(m, isOwner, f, set_, mask) <==>
      && isOwner && (exists b :: b in mask) && match f
        case OwnerField => forall b :: b in mask ==> b == MOVE || b == MODIFY
        case GroupField => forall b :: b in mask ==> b == MOVE || b == MODIFY || b == COPY
        case EveryoneField =>
          && (forall b :: b in mask ==> b == MOVE || b == COPY || b == EXPORT)
          && (set_ && EXPORT in mask ==> EXPORT in m.base && EXPORT in m.owner && HasEvery(m.nextOwner))
        case NextOwnerField => forall b :: b in mask ==> b == MODIFY || b == COPY || b == TRANSFER
        case _ => false
  {
  }

  /** What is refused changes nothing. */
  lemma RefusedKeeps(m: Masks, isOwner: bool, f: MaskField, set_: bool, mask: Mask)
    requires !Allowed(m, isOwner, f, set_, mask)
    ensures Updated(m, isOwner, f, set_, mask) == m
  {
  }

  /** The owner has what is wished within the base, and always move; the group and everyone lose what
      the owner has not. */
  lemma OwnerUpdateMeans(m: Masks, set_: bool, mask: Mask, b: nat)
    requires Allowed(m, true, OwnerField, set_, mask)
    ensures var n := Updated(m, true, OwnerField, set_, mask);
      && (b in n.owner <==> b == MOVE || (b in m.base && Wished(m.owner, set_, mask, b)))
      && (b in n.group <==> b in m.group && b in n.owner)
      && (b in n.everyone <==> b in m.everyone && b in n.owner)
      && n.base == m.base && n.nextOwner == m.nextOwner
  {
  }

  /** The group has what is wished, of what the owner has. */
  lemma GroupUpdateMeans(m: Masks, set_: bool, mask: Mask, b: nat)
    requires Allowed(m, true, GroupField, set_, mask)
    ensures var n := Updated(m, true, GroupField, set_, mask);
      && (b in n.group <==> b in m.owner && Wished(m.group, set_, mask, b))
      && n.base == m.base && n.owner == m.owner && n.everyone == m.everyone && n.nextOwner == m.nextOwner
  {
  }

  /** Everyone has what is wished, of what the owner has, and never modify. */
  lemma EveryoneUpdateMeans(m: Masks, set_: bool, mask: Mask, b: nat)
    requires Allowed(m, true, EveryoneField, set_, mask)
    ensures var n := Updated(m, true, EveryoneField, set_, mask);
      && (b in n.everyone <==> b in m.owner && b != MODIFY && Wished(m.everyone, set_, mask, b))
      && n.base == m.base && n.owner == m.owner && n.group == m.group && n.nextOwner == m.nextOwner
  {
  }

  /** The next owner has what is wished within the base; move comes with any right, and transfer
      where copy is missing; and everyone loses export unless the next owner has every right. */
  lemma NextOwnerUpdateMeans(m: Masks, set_: bool, mask: Mask, b: nat)
    requires Allowed(m, true, NextOwnerField, set_, mask)
    ensures var n := Updated(m, true, NextOwnerField, set_, mask);
      && (b in n.nextOwner <==>
            || (b in m.base && Wished(m.nextOwner, set_, mask, b))
            || (b == MOVE && exists c :: c in m.base && Wished(m.nextOwner, set_, mask, c))
            || (b == TRANSFER && !(COPY in m.base && Wished(m.nextOwner, set_, mask, COPY))))
      && (b in n.everyone <==> b in m.everyone && (b == EXPORT ==> HasEvery(n.nextOwner)))
      && n.base == m.base && n.owner == m.owner && n.group == m.group
  {
    var asked := Applied(m.nextOwner, set_, mask) * m.base;
    assert forall c :: c in asked <==> c in m.base && Wished(m.nextOwner, set_, mask, c);
  }

  // ----- an item's masks -----

  /** An item's five masks after an update, bit by bit: nothing beyond the base, move kept where the
      base has it, and the same corrections for the next owner and for export. */
  lemma ItemUpdateMeans(base: Mask, owner: Mask, group: Mask, everyone: Mask, nextOwner: Mask, b: nat)
    ensures var i := ItemUpdated(base, owner, group, everyone, nextOwner);
      && i.base == base
      && (b in i.current <==> b in base && (b in owner || b == MOVE))
      && (b in i.group <==> b in group && b in i.current)
      && (b in i.everyone <==>
            && b in everyone && b in i.current && b != MODIFY && (b == EXPORT ==> HasEvery(i.nextOwner)))
      && (b in i.nextOwner <==>
            && b in base
            && (b in nextOwner || (b == MOVE && exists c :: c in nextOwner && c in base)
                || (b == TRANSFER && !(COPY in nextOwner && COPY in base))))
  {
    assert forall c :: c in nextOwner * base <==> c in nextOwner && c in base;
  }

  // ----- what an object and a linkset leave -----

  predicate Restricted(b: nat) {
    b == MODIFY || b == COPY || b == TRANSFER
  }

  /** The object has the right, and if it is a restricted one, so has every item inside it. */
  ghost predicate OwnerHas(p: Part, b: nat) {
    b in p.owner && (Restricted(b) ==> forall i :: i in p.items ==> b in i.current)
  }

  ghost predicate NextHas(p: Part, b: nat) {
    b in p.nextOwner && (Restricted(b) ==> forall i :: i in p.items ==> b in i.current && b in i.nextOwner)
  }

  lemma OwnerHeldIs(p: Part, b: nat)
    ensures b in Without(p.owner, OwnerHeld(p)) <==> OwnerHas(p, b)
  {
    hide Without;
    WithoutIs(p.owner, OwnerHeld(p), b);
    forall i | i in p.items
      ensures HeldFromOwner(i) in OwnerHeld(p)
    {
      var k :| 0 <= k < |p.items| && p.items[k] == i;
      assert OwnerHeld(p)[k] == HeldFromOwner(i);
    }
    forall h | h in OwnerHeld(p)
      ensures exists i :: i in p.items && h == HeldFromOwner(i)
    {
      var k :| 0 <= k < |p.items| && OwnerHeld(p)[k] == h;
      assert p.items[k] in p.items;
    }
    hide OwnerHeld;
    assert forall i :: b in HeldFromOwner(i) <==> Restricted(b) && b !in i.current;
  }

  lemma NextHeldIs(p: Part, b: nat)
    ensures b in Without(p.nextOwner, NextHeld(p)) <==> NextHas(p, b)
  {
    hide Without;
    WithoutIs(p.nextOwner, NextHeld(p), b);
    forall i | i in p.items
      ensures HeldFromNext(i) in NextHeld(p)
    {
      var k :| 0 <= k < |p.items| && p.items[k] == i;
      assert NextHeld(p)[k] == HeldFromNext(i);
    }
    forall h | h in NextHeld(p)
      ensures exists i :: i in p.items && h == HeldFromNext(i)
    {
      var k :| 0 <= k < |p.items| && NextHeld(p)[k] == h;
      assert p.items[k] in p.items;
    }
    hide NextHeld;
    assert forall i :: b in HeldFromNext(i) <==> Restricted(b) && !(b in i.current && b in i.nextOwner);
  }

  /** An object's effective rights, and export only where no restricted right is missing. */
  lemma PartEffectiveMeans(p: Part, b: nat)
    ensures b in PartEffective(p).owner <==>
      OwnerHas(p, b) && (b == EXPORT ==> OwnerHas(p, MODIFY) && OwnerHas(p, COPY) && OwnerHas(p, TRANSFER))
    ensures b in PartEffective(p).nextOwner <==>
      NextHas(p, b) && (b == EXPORT ==> NextHas(p, MODIFY) && NextHas(p, COPY) && NextHas(p, TRANSFER))
  {
    hide Without, OwnerHas, NextHas;
    OwnerHeldIs(p, b);
    OwnerHeldIs(p, MODIFY);
    OwnerHeldIs(p, COPY);
    OwnerHeldIs(p, TRANSFER);
    NextHeldIs(p, b);
    NextHeldIs(p, MODIFY);
    NextHeldIs(p, COPY);
    NextHeldIs(p, TRANSFER);
  }

  ghost predicate AllOwn(ps: seq<Part>, b: nat) {
    forall p :: p in ps ==> b in PartEffective(p).owner
  }

  ghost predicate AllLeave(ps: seq<Part>, b: nat) {
    forall p :: p in ps ==> b in PartEffective(p).nextOwner
  }

  lemma PartsHeldIs(ps: seq<Part>, b: nat)
    ensures b in Without(CREATOR, PartsOwner(ps)) <==> b in CREATOR && AllOwn(ps, b)
    ensures b in Without(CREATOR, PartsNext(ps)) <==> b in CREATOR && AllLeave(ps, b)
  {
    hide PartEffective;
    WithoutIs(CREATOR, PartsOwner(ps), b);
    WithoutIs(CREATOR, PartsNext(ps), b);
    forall p | p in ps
      ensures CREATOR - PartEffective(p).owner in PartsOwner(ps) && CREATOR - PartEffective(p).nextOwner in PartsNext(ps)
    {
      var k :| 0 <= k < |ps| && ps[k] == p;
      assert PartsOwner(ps)[k] == CREATOR - PartEffective(p).owner && PartsNext(ps)[k] == CREATOR - PartEffective(p).nextOwner;
    }
    forall h | h in PartsOwner(ps)
      ensures exists p :: p in ps && h == CREATOR - PartEffective(p).owner
    {
      var k :| 0 <= k < |ps| && PartsOwner(ps)[k] == h;
      assert ps[k] in ps;
    }
    forall h | h in PartsNext(ps)
      ensures exists p :: p in ps && h == CREATOR - PartEffective(p).nextOwner
    {
      var k :| 0 <= k < |ps| && PartsNext(ps)[k] == h;
      assert ps[k] in ps;
    }
  }

  /** A linkset's effective rights are those all its parts have, of the five there are, and export
      only where all have every restricted right. */
  lemma LinksetEffectiveMeans(ps: seq<Part>, b: nat)
    ensures b in LinksetEffective(ps).owner <==>
      && b in {TRANSFER, MODIFY, COPY, EXPORT, MOVE} && AllOwn(ps, b)
      && (b == EXPORT ==> AllOwn(ps, MODIFY) && AllOwn(ps, COPY) && AllOwn(ps, TRANSFER))
    ensures b in LinksetEffective(ps).nextOwner <==>
      && b in {TRANSFER, MODIFY, COPY, EXPORT, MOVE} && AllLeave(ps, b)
      && (b == EXPORT ==> AllLeave(ps, MODIFY) && AllLeave(ps, COPY) && AllLeave(ps, TRANSFER))
  {
    hide Without, AllOwn, AllLeave, PartsOwner, PartsNext;
    PartsHeldIs(ps, b);
    PartsHeldIs(ps, MODIFY);
    PartsHeldIs(ps, COPY);
    PartsHeldIs(ps, TRANSFER);
  }
}
