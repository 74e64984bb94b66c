/** What the mirror holds, said of the scene's fields. */
module MirrorMeaning {
  import opened Prelude
  import opened Mirror

  predicate Solid(e: Entity) {
    e.hasObjectId && !e.phantom && !e.shapeless
  }

  ghost predicate HasChild(s: Scene, root: EntityId) {
    exists c :: c in s && s[c].parent == root
  }

  predicate Member(s: Scene, root: EntityId, k: EntityId) {
    k in s && (k == root || s[k].parent == root)
  }

  /** A root has a body unless it is phantom: when it is physical with children, if any of them all
      is solid, and otherwise if it is itself. */
  ghost predicate RootHasBody(s: Scene, root: EntityId)
    requires root in s
  {
    !s[root].phantom &&
    if s[root].physical && HasChild(s, root) then exists c :: Member(s, root, c) && Solid(s[c]) else Solid(s[root])
  }

  /** A child has one of its own when it is solid, under a root neither phantom nor physical. */
  predicate ChildHasBody(s: Scene, root: EntityId, k: EntityId)
    requires root in s
  {
    k in s && s[k].parent == root && !s[root].phantom && !s[root].physical && Solid(s[k])
  }

  /** The body a member has, told by its own fields and whether its root is one compound. */
  ghost predicate IsBodyOf(s: Scene, root: EntityId, suspend: bool, k: EntityId, d: Definition)
    requires root in s && k in s
  {
    && d.entity == k && d.body == s[k].body
    && (d.motion == Dynamic <==> k == root && s[root].physical && !suspend)
    && (d.Compound? <==> k == root && s[root].physical && HasChild(s, root))
    && (d.Compound? ==>
          forall c :: (c in d.parts <==> Member(s, root, c) && Solid(s[c])) && (c in d.parts ==> d.parts[c] == s[c].body))
  }

  lemma ChildrenAre(s: Scene, root: EntityId)
    ensures HasChild(s, root) <==> Children(s, root) != {}
  {
    if HasChild(s, root) {
      var c :| c in s && s[c].parent == root;
      assert c in Children(s, root);
    }
  }

  lemma PartsAre(s: Scene, root: EntityId)
    requires IsRoot(s, root)
    ensures forall c :: c in Parts(s, root) <==> Member(s, root, c) && Solid(s[c])
    ensures Parts(s, root) != map[] <==> exists c :: Member(s, root, c) && Solid(s[c])
  {
    if c :| Member(s, root, c) && Solid(s[c]) {
      assert c in Parts(s, root);
    }
    if Parts(s, root) != map[] {
      var c :| c in Parts(s, root);
    }
  }

  /** Which members of a linkset have bodies, and what those are. */
  lemma LinksetMeans(s: Scene, root: EntityId, suspend: bool, k: EntityId)
    requires IsRoot(s, root)
    ensures k in LinksetBodies(s, root, suspend) <==> (k == root && RootHasBody(s, root)) || ChildHasBody(s, root, k)
    ensures k in LinksetBodies(s, root, suspend) ==> IsBodyOf(s, root, suspend, k, LinksetBodies(s, root, suspend)[k])
  {
    ChildrenAre(s, root);
    PartsAre(s, root);
    hide Parts, Children;
    if !OneBody(s, root) {
      SinglesMean(s, root, suspend, k);
    }
  }

  lemma SinglesMean(s: Scene, root: EntityId, suspend: bool, k: EntityId)
    requires IsRoot(s, root) && !OneBody(s, root)
    ensures k in LinksetBodies(s, root, suspend) <==> (k == root && RootHasBody(s, root)) || ChildHasBody(s, root, k)
    ensures k in LinksetBodies(s, root, suspend) ==> IsBodyOf(s, root, suspend, k, LinksetBodies(s, root, suspend)[k])
  {
    ChildrenAre(s, root);
    if k in Children(s, root) {
      assert HasChild(s, root);
    }
  }

  /** What a full pass leaves: the bodies of every linkset none of whose bodies the world refused,
      but for a root without object id. */
  lemma MirroredMeans(s: Scene, refuses: Refusal, k: EntityId)
    ensures k in Mirrored(s, refuses) <==>
      && k in s && var root := if s[k].parent == 0 then k else s[k].parent;
      && root in s && s[root].parent == 0 && !Refused(LinksetBodies(s, root, false), refuses)
      && if k == root then s[k].hasObjectId && RootHasBody(s, k) else ChildHasBody(s, root, k)
    ensures k in Mirrored(s, refuses) ==>
      IsBodyOf(s, if s[k].parent == 0 then k else s[k].parent, false, k, Mirrored(s, refuses)[k])
  {
    hide LinksetBodies, RootHasBody, ChildHasBody, IsBodyOf;
    if k in s && RootOf(s, k) in s && IsRoot(s, RootOf(s, k)) {
      LinksetMeans(s, RootOf(s, k), false, k);
      NotBoth(s, RootOf(s, k), k);
    }
  }

  lemma NotBoth(s: Scene, root: EntityId, k: EntityId)
    requires IsRoot(s, root)
    ensures ChildHasBody(s, root, k) ==> k != root
  {
  }

  /** In the mirror of a scene a body moves exactly when it is a physical root's, and each is its own
      entity's. */
  lemma PhysicalRootsMove(s: Scene, refuses: Refusal, k: EntityId)
    requires k in Mirrored(s, refuses)
    ensures k in s && var d := Mirrored(s, refuses)[k];
      d.entity == k && d.body == s[k].body && (d.motion == Dynamic <==> s[k].parent == 0 && s[k].physical)
  {
    hide Mirrored, LinksetBodies, RootHasBody, ChildHasBody;
    MirroredMeans(s, refuses, k);
  }

  /** While dynamics are suspended nothing in a linkset moves. */
  lemma NothingMovesSuspended(s: Scene, root: EntityId, k: EntityId)
    requires IsRoot(s, root) && k in LinksetBodies(s, root, true)
    ensures LinksetBodies(s, root, true)[k].motion == Static
  {
    hide LinksetBodies, RootHasBody;
    LinksetMeans(s, root, true, k);
  }

  /** One entity synchronized on its own. */
  lemma AloneMeans(id: EntityId, e: Entity, linked: Option<Motion>)
    ensures Alone(id, e, linked).Some? <==> Solid(e) && (e.parent == 0 || linked.Some?)
    ensures Alone(id, e, linked).Some? ==> var d := Alone(id, e, linked).value;
      && d.Single? && d.entity == id && d.body == e.body
      && (d.motion == Dynamic <==> if linked.Some? then linked.value == Dynamic else e.physical)
  {
  }
}
