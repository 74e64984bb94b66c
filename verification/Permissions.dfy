/** What permission updates keep, and linksets leave. */
module Permissions {
  import opened Prelude

  /** A thirty-two-bit mask, as the set of its bits. */
  type Mask = set<nat>

  const TRANSFER: nat := 13
  const MODIFY: nat := 14
  const COPY: nat := 15
  const EXPORT: nat := 16
  const MOVE: nat := 19
  const ALL: Mask := {TRANSFER, MODIFY, COPY, MOVE}
  const CREATOR: Mask := {TRANSFER, MODIFY, COPY, MOVE, EXPORT}
  const RESTRICTED: Mask := {TRANSFER, MODIFY, COPY}

  /** An object's five masks. */
  datatype Masks = Masks(base: Mask, owner: Mask, group: Mask, everyone: Mask, nextOwner: Mask)

  datatype MaskField = BaseField | OwnerField | GroupField | EveryoneField | NextOwnerField | OtherField

  const NEW_OBJECT: Masks := Masks(CREATOR, CREATOR, {}, {}, ALL)

  function Applied(value: Mask, set_: bool, mask: Mask): Mask {
    if set_ then value + mask else value - mask
  }

  /** What the field lets a caller ask for. */
  function Askable(f: MaskField): Mask {
    match f
    case OwnerField => {MOVE, MODIFY}
    case GroupField => {MODIFY, MOVE, COPY}
    case EveryoneField => {MOVE, COPY, EXPORT}
    case NextOwnerField => {MODIFY, COPY, TRANSFER}
    case _ => {}
  }

  /** Export is given to everyone only with full rights all along the way. */
  predicate MayExport(m: Masks) {
    EXPORT in m.base && EXPORT in m.owner && ALL <= m.nextOwner
  }

  predicate Allowed(m: Masks, isOwner: bool, f: MaskField, set_: bool, mask: Mask) {
    && isOwner && mask != {} && f != BaseField && f != OtherField && mask <= Askable(f)
    && (f == EveryoneField && set_ && EXPORT in mask ==> MayExport(m))
  }

  function NextOwnerOf(value: Mask, base: Mask, moves: Mask, transfers: Mask): Mask {
    var kept := value * base;
    var movable := if kept != {} then kept + moves else kept;
    if COPY in movable then movable else movable + transfers
  }

  function WithoutExport(everyone: Mask, nextOwner: Mask): Mask {
    if ALL <= nextOwner then everyone else everyone - {EXPORT}
  }

  function Updated(m: Masks, isOwner: bool, f: MaskField, set_: bool, mask: Mask): Masks {
    if !Allowed(m, isOwner, f, set_, mask) then m
    else
      match f
      case OwnerField =>
        var owner := (Applied(m.owner, set_, mask) * m.base) + {MOVE};
        m.(owner := owner, group := m.group * owner, everyone := m.everyone * owner)
      case GroupField => m.(group := Applied(m.group, set_, mask) * m.owner)
      case EveryoneField => m.(everyone := Applied(m.everyone, set_, mask) * m.owner - {MODIFY})
      case _ =>
        var next := NextOwnerOf(Applied(m.nextOwner, set_, mask), m.base, {MOVE}, {TRANSFER});
        m.(nextOwner := next, everyone := WithoutExport(m.everyone, next))
  }

  /** What no sequence of updates may break. */
  predicate Sound(m: Masks) {
    && m.owner <= m.base + {MOVE} && m.group <= m.owner && m.everyone <= m.owner
    && MODIFY !in m.everyone && (COPY in m.nextOwner || TRANSFER in m.nextOwner)
    && (EXPORT in m.everyone ==> MayExport(m))
  }

  lemma NewObjectIsSound()
    ensures Sound(NEW_OBJECT)
  {
  }

  lemma UpdateKeepsSound(m: Masks, isOwner: bool, f: MaskField, set_: bool, mask: Mask)
    requires Sound(m)
    ensures Sound(Updated(m, isOwner, f, set_, mask)) && Updated(m, isOwner, f, set_, mask).base == m.base
  {
  }

  datatype Request = Request(isOwner: bool, field: MaskField, set_: bool, mask: Mask)

  function AfterAll(m: Masks, rs: seq<Request>): Masks
    decreases |rs|
  {
    if rs == [] then m
    else
      var before, r := AfterAll(m, rs[..|rs| - 1]), rs[|rs| - 1];
      Updated(before, r.isOwner, r.field, r.set_, r.mask)
  }

  /** Sound masks stay sound through any updates, and none but the owner's change anything. */
  lemma {:induction false} EveryRunIsSound(m: Masks, rs: seq<Request>)
    requires Sound(m)
    ensures Sound(AfterAll(m, rs)) && AfterAll(m, rs).base == m.base
    ensures (forall r :: r in rs ==> !r.isOwner) ==> AfterAll(m, rs) == m
    decreases |rs|
  {
    hide Sound, Updated;
    if rs != [] {
      var front, r := rs[..|rs| - 1], rs[|rs| - 1];
      EveryRunIsSound(m, front);
      UpdateKeepsSound(AfterAll(m, front), r.isOwner, r.field, r.set_, r.mask);
      assert forall q :: q in front ==> q in rs;
      NotTheOwner(AfterAll(m, front), r);
    }
  }

  lemma NotTheOwner(m: Masks, r: Request)
    ensures !r.isOwner ==> Updated(m, r.isOwner, r.field, r.set_, r.mask) == m
  {
  }

  // ----- items inside an object -----

  datatype ItemMasks = ItemMasks(base: Mask, current: Mask, group: Mask, everyone: Mask, nextOwner: Mask)

  function ItemUpdated(base: Mask, owner: Mask, group: Mask, everyone: Mask, nextOwner: Mask): ItemMasks {
    var current := owner * base + {MOVE} * base;
    var next := NextOwnerOf(nextOwner, base, {MOVE} * base, {TRANSFER} * base);
    ItemMasks(base, current, group * current, WithoutExport(everyone * current - {MODIFY}, next), next)
  }

  /** An accepted item update leaves masks that agree, whatever was asked for. The next owner is
      left with copy or transfer exactly when copy is asked for and in the base, or transfer is in
      the base. */
  lemma ItemUpdateIsSound(base: Mask, owner: Mask, group: Mask, everyone: Mask, nextOwner: Mask)
    ensures var i := ItemUpdated(base, owner, group, everyone, nextOwner);
      && i.current <= base && i.group <= i.current && i.everyone <= i.current && i.nextOwner <= base
      && MODIFY !in i.everyone && (EXPORT in i.everyone ==> ALL <= i.nextOwner)
      && (COPY in i.nextOwner || TRANSFER in i.nextOwner <==> COPY in nextOwner * base || TRANSFER in base)
  {
  }

  /** An item whose base lacks transfer, updated without copy: its next owner may do neither. */
  lemma NextOwnerMayBeStuck(owner: Mask, group: Mask, everyone: Mask)
    ensures var i := ItemUpdated({MODIFY, COPY, MOVE}, owner, group, everyone, {});
      COPY !in i.nextOwner && TRANSFER !in i.nextOwner
  {
    ItemUpdateIsSound({MODIFY, COPY, MOVE}, owner, group, everyone, {});
  }

  // ----- what a linkset leaves -----

  datatype Effective = Effective(owner: Mask, nextOwner: Mask)

  /** An object, as far as its effective permissions go. */
  datatype Part = Part(owner: Mask, nextOwner: Mask, items: seq<ItemMasks>)

  /** The restricted bits an item holds back from its object's owner, and from the next. */
  function HeldFromOwner(i: ItemMasks): Mask {
    RESTRICTED - i.current
  }

  function HeldFromNext(i: ItemMasks): Mask {
    RESTRICTED - i.current * i.nextOwner
  }

  function Exportable(m: Mask): Mask {
    if RESTRICTED <= m then m else m - {EXPORT}
  }

  /** What is left when every one of these is taken away. */
  function Without(m: Mask, held: seq<Mask>): Mask
    decreases |held|
  {
    if held == [] then m else Without(m, held[..|held| - 1]) - held[|held| - 1]
  }

  function OwnerHeld(p: Part): (r: seq<Mask>)
    ensures |r| == |p.items| && forall i :: 0 <= i < |r| ==> r[i] == HeldFromOwner(p.items[i])
  {
    seq(|p.items|, i requires 0 <= i < |p.items| => HeldFromOwner(p.items[i]))
  }

  function NextHeld(p: Part): (r: seq<Mask>)
    ensures |r| == |p.items| && forall i :: 0 <= i < |r| ==> r[i] == HeldFromNext(p.items[i])
  {
    seq(|p.items|, i requires 0 <= i < |p.items| => HeldFromNext(p.items[i]))
  }

  function PartEffective(p: Part): Effective {
    Effective(Exportable(Without(p.owner, OwnerHeld(p))), Exportable(Without(p.nextOwner, NextHeld(p))))
  }

  /** What a part keeps from the linkset's owner, of all a creator has. */
  function PartsOwner(ps: seq<Part>): (r: seq<Mask>)
    ensures |r| == |ps| && forall i :: 0 <= i < |r| ==> r[i] == CREATOR - PartEffective(ps[i]).owner
  {
    seq(|ps|, i requires 0 <= i < |ps| => CREATOR - PartEffective(ps[i]).owner)
  }

  function PartsNext(ps: seq<Part>): (r: seq<Mask>)
    ensures |r| == |ps| && forall i :: 0 <= i < |r| ==> r[i] == CREATOR - PartEffective(ps[i]).nextOwner
  {
    seq(|ps|, i requires 0 <= i < |ps| => CREATOR - PartEffective(ps[i]).nextOwner)
  }

  function LinksetEffective(ps: seq<Part>): Effective {
    Effective(Exportable(Without(CREATOR, PartsOwner(ps))), Exportable(Without(CREATOR, PartsNext(ps))))
  }

  // ----- order does not matter -----

  lemma {:induction false} WithoutIs(m: Mask, held: seq<Mask>, bit: nat)
    ensures bit in Without(m, held) <==> bit in m && forall h :: h in held ==> bit !in h
    decreases |held|
  {
    if held != [] {
      var front, last := held[..|held| - 1], held[|held| - 1];
      WithoutIs(m, front, bit);
      assert forall h :: h in held <==> h in front || h == last;
    }
  }

  lemma SameWithout(m: Mask, held: seq<Mask>, more: seq<Mask>)
    requires forall h :: h in held ==> h in more
    ensures Without(m, more) <= Without(m, held)
    ensures (forall h :: h in more ==> h in held) ==> Without(m, held) == Without(m, more)
  {
    forall bit: nat
      ensures bit in Without(m, more) ==> bit in Without(m, held)
      ensures (forall h :: h in more ==> h in held) ==> (bit in Without(m, held) <==> bit in Without(m, more))
    {
      WithoutIs(m, held, bit);
      WithoutIs(m, more, bit);
    }
  }

  lemma ExportableShrinks(a: Mask, b: Mask)
    ensures a <= b ==> Exportable(a) <= Exportable(b)
  {
  }

  lemma Listed(ps: seq<Part>, qs: seq<Part>)
    requires forall p :: p in ps ==> p in qs
    ensures forall m :: m in PartsOwner(ps) ==> m in PartsOwner(qs)
    ensures forall m :: m in PartsNext(ps) ==> m in PartsNext(qs)
  {
    hide PartEffective;
    forall i | 0 <= i < |ps|
      ensures PartsOwner(ps)[i] in PartsOwner(qs) && PartsNext(ps)[i] in PartsNext(qs)
    {
      assert ps[i] in qs;
      var j :| 0 <= j < |qs| && qs[j] == ps[i];
      assert PartsOwner(qs)[j] == PartsOwner(ps)[i] && PartsNext(qs)[j] == PartsNext(ps)[i];
    }
  }

  /** A linkset's effective permissions are the same in whatever order its parts are met, and more
      parts never add a permission. */
  lemma LinksetIgnoresOrder(ps: seq<Part>, qs: seq<Part>)
    requires forall p :: p in ps ==> p in qs
    ensures LinksetEffective(qs).owner <= LinksetEffective(ps).owner
    ensures LinksetEffective(qs).nextOwner <= LinksetEffective(ps).nextOwner
    ensures (forall p :: p in qs ==> p in ps) ==> LinksetEffective(ps) == LinksetEffective(qs)
  {
    hide Exportable, PartsOwner, PartsNext;
    Listed(ps, qs);
    SameWithout(CREATOR, PartsOwner(ps), PartsOwner(qs));
    SameWithout(CREATOR, PartsNext(ps), PartsNext(qs));
    ExportableShrinks(Without(CREATOR, PartsOwner(qs)), Without(CREATOR, PartsOwner(ps)));
    ExportableShrinks(Without(CREATOR, PartsNext(qs)), Without(CREATOR, PartsNext(ps)));
    if forall p :: p in qs ==> p in ps {
      Listed(qs, ps);
    }
  }

  lemma ItemsListed(p: Part, q: Part)
    requires forall i :: i in p.items ==> i in q.items
    ensures forall m :: m in OwnerHeld(p) ==> m in OwnerHeld(q)
    ensures forall m :: m in NextHeld(p) ==> m in NextHeld(q)
  {
    hide HeldFromOwner, HeldFromNext;
    forall i | 0 <= i < |p.items|
      ensures OwnerHeld(p)[i] in OwnerHeld(q) && NextHeld(p)[i] in NextHeld(q)
    {
      assert p.items[i] in q.items;
      var j :| 0 <= j < |q.items| && q.items[j] == p.items[i];
      assert OwnerHeld(q)[j] == OwnerHeld(p)[i] && NextHeld(q)[j] == NextHeld(p)[i];
    }
  }

  /** The same of one object and the items inside it. */
  lemma PartIgnoresOrder(p: Part, q: Part)
    requires p.owner == q.owner && p.nextOwner == q.nextOwner && forall i :: i in p.items ==> i in q.items
    ensures PartEffective(q).owner <= PartEffective(p).owner && PartEffective(q).nextOwner <= PartEffective(p).nextOwner
    ensures (forall i :: i in q.items ==> i in p.items) ==> PartEffective(p) == PartEffective(q)
  {
    hide Exportable, OwnerHeld, NextHeld;
    ItemsListed(p, q);
    SameWithout(p.owner, OwnerHeld(p), OwnerHeld(q));
    SameWithout(p.nextOwner, NextHeld(p), NextHeld(q));
    ExportableShrinks(Without(p.owner, OwnerHeld(q)), Without(p.owner, OwnerHeld(p)));
    ExportableShrinks(Without(p.nextOwner, NextHeld(q)), Without(p.nextOwner, NextHeld(p)));
    if forall i :: i in q.items ==> i in p.items {
      ItemsListed(q, p);
    }
  }

  /** The same part with the same items or more. */
  predicate Grown(p: Part, q: Part) {
    p.owner == q.owner && p.nextOwner == q.nextOwner && forall i :: i in p.items ==> i in q.items
  }

  lemma FewerLeft(m: Mask, held: seq<Mask>, more: seq<Mask>)
    requires forall h :: h in held ==> exists g :: g in more && m * h <= g
    ensures Without(m, more) <= Without(m, held)
  {
    forall bit | bit in Without(m, more)
      ensures bit in Without(m, held)
    {
      WithoutIs(m, more, bit);
      WithoutIs(m, held, bit);
      forall h | h in held
        ensures bit !in h
      {
        var g :| g in more && m * h <= g;
      }
    }
  }

  lemma HeldByGrown(ps: seq<Part>, qs: seq<Part>)
    requires forall p :: p in ps ==> exists q :: q in qs && Grown(p, q)
    ensures forall h :: h in PartsOwner(ps) ==> exists g :: g in PartsOwner(qs) && CREATOR * h <= g
    ensures forall h :: h in PartsNext(ps) ==> exists g :: g in PartsNext(qs) && CREATOR * h <= g
  {
    hide PartEffective;
    forall i | 0 <= i < |ps|
      ensures exists g :: g in PartsOwner(qs) && CREATOR * PartsOwner(ps)[i] <= g
      ensures exists g :: g in PartsNext(qs) && CREATOR * PartsNext(ps)[i] <= g
    {
      assert ps[i] in ps;
      var q :| q in qs && Grown(ps[i], q);
      var j :| 0 <= j < |qs| && qs[j] == q;
      PartIgnoresOrder(ps[i], q);
      assert PartsOwner(qs)[j] in PartsOwner(qs) && PartsNext(qs)[j] in PartsNext(qs);
      assert CREATOR * PartsOwner(ps)[i] <= PartsOwner(qs)[j] && CREATOR * PartsNext(ps)[i] <= PartsNext(qs)[j];
    }
  }

  /** A linkset's effective permissions only shrink when items are added inside its parts, and when
      parts are added to it, or both. */
  lemma LinksetShrinks(ps: seq<Part>, qs: seq<Part>)
    requires forall p :: p in ps ==> exists q :: q in qs && Grown(p, q)
    ensures LinksetEffective(qs).owner <= LinksetEffective(ps).owner
    ensures LinksetEffective(qs).nextOwner <= LinksetEffective(ps).nextOwner
  {
    hide Exportable, PartsOwner, PartsNext, Grown;
    HeldByGrown(ps, qs);
    FewerLeft(CREATOR, PartsOwner(ps), PartsOwner(qs));
    FewerLeft(CREATOR, PartsNext(ps), PartsNext(qs));
    ExportableShrinks(Without(CREATOR, PartsOwner(qs)), Without(CREATOR, PartsOwner(ps)));
    ExportableShrinks(Without(CREATOR, PartsNext(qs)), Without(CREATOR, PartsNext(ps)));
  }

  /** One item put inside one part. */
  lemma AddedItemShrinks(ps: seq<Part>, k: nat, item: ItemMasks)
    requires k < |ps|
    ensures var qs := ps[k := ps[k].(items := ps[k].items + [item])];
      && LinksetEffective(qs).owner <= LinksetEffective(ps).owner
      && LinksetEffective(qs).nextOwner <= LinksetEffective(ps).nextOwner
  {
    hide LinksetEffective;
    var qs := ps[k := ps[k].(items := ps[k].items + [item])];
    forall p | p in ps
      ensures exists q :: q in qs && Grown(p, q)
    {
      var i :| 0 <= i < |ps| && ps[i] == p;
      assert qs[i] in qs && Grown(p, qs[i]);
    }
    LinksetShrinks(ps, qs);
  }

  // ----- in place -----

  class ObjectMasks {
    var base: Mask
    var owner: Mask
    var group: Mask
    var everyone: Mask
    var nextOwner: Mask

    function State(): Masks
      reads this
    {
      Masks(base, owner, group, everyone, nextOwner)
    }

    constructor ()
      ensures State() == NEW_OBJECT && Sound(State())
    {
      base, owner, group, everyone, nextOwner := CREATOR, CREATOR, {}, {}, ALL;
      new;
      NewObjectIsSound();
    }

    method ApplyUpdate(isOwner: bool, f: MaskField, set_: bool, mask: Mask) returns (ok: bool)
      modifies this
      ensures State() == Updated(old(State()), isOwner, f, set_, mask)
      ensures ok == Allowed(old(State()), isOwner, f, set_, mask)
      ensures old(Sound(State())) ==> Sound(State())
    {
      if Sound(State()) {
        UpdateKeepsSound(State(), isOwner, f, set_, mask);
      }
      hide Sound;
      if !isOwner || mask == {} {
        return false;
      }
      match f {
        case BaseField => return false;
        case OwnerField =>
          if mask - {MOVE, MODIFY} != {} {
            return false;
          }
          owner := Applied(owner, set_, mask) * base;
          owner := owner + {MOVE};
          group := group * owner;
          everyone := everyone * owner;
        case GroupField =>
          if mask - {MODIFY, MOVE, COPY} != {} {
            return false;
          }
          group := Applied(group, set_, mask) * owner;
        case EveryoneField =>
          if mask - {MOVE, COPY, EXPORT} != {} {
            return false;
          }
          if set_ && EXPORT in mask && (EXPORT !in base || EXPORT !in owner || nextOwner * ALL != ALL) {
            return false;
          }
          everyone := Applied(everyone, set_, mask) * owner;
          everyone := everyone - {MODIFY};
        case NextOwnerField =>
          if mask - {MODIFY, COPY, TRANSFER} != {} {
            return false;
          }
          nextOwner := Applied(nextOwner, set_, mask) * base;
          if nextOwner != {} {
            nextOwner := nextOwner + {MOVE};
          }
          if COPY !in nextOwner {
            nextOwner := nextOwner + {TRANSFER};
          }
          if nextOwner * ALL != ALL {
            everyone := everyone - {EXPORT};
          }
        case OtherField => return false;
      }
      return true;
    }
  }

  /** An item inside an object. */
  class TaskItem {
    var name: Bytes
    var description: Bytes
    var flags: uint32
    var base: Mask
    var current: Mask
    var group: Mask
    var everyone: Mask
    var nextOwner: Mask
    var saleType: nat
    var salePrice: int

    function State(): ItemMasks
      reads this
    {
      ItemMasks(base, current, group, everyone, nextOwner)
    }

    static method NextRights(next: Mask, base: Mask) returns (rights: Mask)
      ensures rights == NextOwnerOf(next, base, {MOVE} * base, {TRANSFER} * base)
    {
      rights := next * base;
      if rights != {} {
        rights := rights + {MOVE} * base;
      }
      if COPY !in rights {
        rights := rights + {TRANSFER} * base;
      }
    }

    /** All of an update or none of it. */
    method ApplyUpdate(
        newName: Bytes, newDescription: Bytes, newFlags: uint32, owner: Mask, newGroup: Mask, newEveryone: Mask,
        next: Mask, newSaleType: nat, newSalePrice: int) returns (ok: bool)
      modifies this
      ensures ok <==> |newName| <= 255 && |newDescription| <= 255 && newSaleType <= 3 && newSalePrice >= 0
      ensures !ok ==> unchanged(this)
      ensures ok ==> State() == ItemUpdated(old(base), owner, newGroup, newEveryone, next)
      ensures ok ==> name == newName && description == newDescription && flags == newFlags
      ensures ok ==> saleType == newSaleType && salePrice == newSalePrice
    {
      hide NextOwnerOf;
      if |newName| > 255 || |newDescription| > 255 || newSaleType > 3 || newSalePrice < 0 {
        return false;
      }
      name := newName;
      description := newDescription;
      flags := newFlags;
      current := owner * base;
      current := current + {MOVE} * base;
      group := newGroup * current;
      everyone := newEveryone * current;
      everyone := everyone - {MODIFY};
      nextOwner := NextRights(next, base);
      if nextOwner * ALL != ALL {
        everyone := everyone - {EXPORT};
      }
      assert everyone == WithoutExport(newEveryone * current - {MODIFY}, nextOwner);
      saleType := newSaleType;
      salePrice := newSalePrice;
      return true;
    }
  }

  /** One object's effective permissions, item by item and right by right. */
  method EffectiveOf(p: Part) returns (result: Effective)
    ensures result == PartEffective(p)
  {
    hide HeldFromOwner, HeldFromNext, Exportable;
    var owner, nextOwner := p.owner, p.nextOwner;
    var k := 0;
    while k < |p.items|
      invariant k <= |p.items|
      invariant owner == Without(p.owner, OwnerHeld(p)[..k]) && nextOwner == Without(p.nextOwner, NextHeld(p)[..k])
    {
      assert OwnerHeld(p)[..k + 1][..k] == OwnerHeld(p)[..k] && NextHeld(p)[..k + 1][..k] == NextHeld(p)[..k];
      owner, nextOwner := TakeAway(owner, nextOwner, p.items[k]);
      k := k + 1;
    }
    assert OwnerHeld(p)[..k] == OwnerHeld(p) && NextHeld(p)[..k] == NextHeld(p);
    return Effective(Exportable(owner), Exportable(nextOwner));
  }

  method TakeAway(owner: Mask, nextOwner: Mask, item: ItemMasks) returns (o: Mask, n: Mask)
    ensures o == owner - HeldFromOwner(item) && n == nextOwner - HeldFromNext(item)
  {
    o, n := owner, nextOwner;
    var rights := [MODIFY, COPY, TRANSFER];
    var k := 0;
    while k < 3
      invariant k <= 3
      invariant o == owner - ((set r | r in rights[..k]) - item.current)
      invariant n == nextOwner - ((set r | r in rights[..k]) - item.current * item.nextOwner)
    {
      assert rights[..k + 1] == rights[..k] + [rights[k]];
      if rights[k] !in item.current {
        o := o - {rights[k]};
      }
      if rights[k] !in item.current * item.nextOwner {
        n := n - {rights[k]};
      }
      k := k + 1;
    }
    assert rights[..3] == rights;
    assert (set r | r in rights) == RESTRICTED;
  }

  /** A linkset's: the rights common to all its parts. */
  method EffectiveOfAll(ps: seq<Part>) returns (result: Effective)
    ensures result == LinksetEffective(ps)
  {
    hide PartEffective, Exportable;
    var owner, nextOwner := CREATOR, CREATOR;
    var k := 0;
    while k < |ps|
      invariant k <= |ps| && owner <= CREATOR && nextOwner <= CREATOR
      invariant owner == Without(CREATOR, PartsOwner(ps)[..k]) && nextOwner == Without(CREATOR, PartsNext(ps)[..k])
    {
      assert PartsOwner(ps)[..k + 1][..k] == PartsOwner(ps)[..k] && PartsNext(ps)[..k + 1][..k] == PartsNext(ps)[..k];
      var part := EffectiveOf(ps[k]);
      assert owner * part.owner == owner - (CREATOR - part.owner);
      assert nextOwner * part.nextOwner == nextOwner - (CREATOR - part.nextOwner);
      owner := owner * part.owner;
      nextOwner := nextOwner * part.nextOwner;
      k := k + 1;
    }
    assert PartsOwner(ps)[..k] == PartsOwner(ps) && PartsNext(ps)[..k] == PartsNext(ps);
    return Effective(Exportable(owner), Exportable(nextOwner));
  }
}
