/**
 * Breadth-first flattening of a project's analysis taxonomic groups
 * (GetAnalysisTaxonomicGroupsForProject, DiversityService.cs): every analysis below a
 * root entry inherits the root's taxonomic group. Entries are identified by analysis id.
 */
module Flattening {
  import opened Wrappers
  import opened Configuration
  import opened Model
  import opened Storage
  import opened Credentials

  /** `id` is an analysis whose parent analysis is `parentId`. */
  predicate IsChildOf(analyses: seq<Analysis>, id: int, parentId: int) {
    exists i :: 0 <= i < |analyses| && analyses[i].analysisId == id && analyses[i].analysisParentId == Some(parentId)
  }

  /** The entries enqueued for the children of `parent`, in the order of `analyses`. */
  function ChildEntries(analyses: seq<Analysis>, parent: AnalysisTaxonomicGroup): (r: seq<AnalysisTaxonomicGroup>)
    ensures forall i :: 0 <= i < |analyses| && analyses[i].analysisParentId == Some(parent.analysisId) ==>
              AnalysisTaxonomicGroup(analyses[i].analysisId, parent.taxonomicGroup) in r
    ensures forall c :: c in r ==> c.taxonomicGroup == parent.taxonomicGroup && IsChildOf(analyses, c.analysisId, parent.analysisId)
  {
    if |analyses| == 0 then []
    else
      var init := analyses[..|analyses| - 1];
      var last := analyses[|analyses| - 1];
      assert forall i :: 0 <= i < |init| ==> init[i] == analyses[i];
      ChildEntries(init, parent) +
        (if last.analysisParentId == Some(parent.analysisId) then [AnalysisTaxonomicGroup(last.analysisId, parent.taxonomicGroup)] else [])
  }

  /** The result holds at most one entry per analysis id. */
  predicate NoSharedIds(r: set<AnalysisTaxonomicGroup>) {
    forall x, y :: x in r && y in r && x.analysisId == y.analysisId ==> x == y
  }

  /** Some entry of `r` has analysis id `id`. */
  predicate HasId(r: set<AnalysisTaxonomicGroup>, id: int) {
    exists x :: x in r && x.analysisId == id
  }

  /** Every root's analysis is in the result. */
  predicate CoversRoots(r: set<AnalysisTaxonomicGroup>, roots: seq<AnalysisTaxonomicGroup>) {
    forall i :: 0 <= i < |roots| ==> HasId(r, roots[i].analysisId)
  }

  /** Every child analysis of an entry of the result is in the result. */
  predicate ClosedUnderChildren(r: set<AnalysisTaxonomicGroup>, analyses: seq<Analysis>) {
    forall x, i :: x in r && 0 <= i < |analyses| && analyses[i].analysisParentId == Some(x.analysisId) ==>
      HasId(r, analyses[i].analysisId)
  }

  /**
   * `depth` ranks the entries of `r` towards the roots: every entry is a root, or a child of
   * an entry of `r` of smaller depth whose taxonomic group it carries.
   */
  predicate RankedFromRoots(r: set<AnalysisTaxonomicGroup>, roots: seq<AnalysisTaxonomicGroup>, analyses: seq<Analysis>,
                            depth: map<int, nat>) {
    forall x :: x in r ==>
      && x.analysisId in depth
      && (x in roots ||
          exists p :: && p in r && p.analysisId in depth && depth[p.analysisId] < depth[x.analysisId]
                      && IsChildOf(analyses, x.analysisId, p.analysisId) && x.taxonomicGroup == p.taxonomicGroup)
  }

  /**
   * Every entry descends from a root entry of the result through a chain of entries of the
   * result, each a child analysis of the next and carrying its taxonomic group; a chain
   * cannot run in a circle, since the depths along it strictly decrease.
   */
  ghost predicate Inherited(r: set<AnalysisTaxonomicGroup>, roots: seq<AnalysisTaxonomicGroup>, analyses: seq<Analysis>) {
    exists depth: map<int, nat> :: RankedFromRoots(r, roots, analyses, depth)
  }

  /** Following the ranking down to a root: every entry carries the group of a root entry of the result. */
  lemma {:induction false} RankedRootGroup(r: set<AnalysisTaxonomicGroup>, roots: seq<AnalysisTaxonomicGroup>,
                                           analyses: seq<Analysis>, depth: map<int, nat>, x: AnalysisTaxonomicGroup)
    requires RankedFromRoots(r, roots, analyses, depth) && x in r
    ensures exists g :: g in roots && g in r && g.taxonomicGroup == x.taxonomicGroup
    decreases depth[x.analysisId]
  {
    if x !in roots {
      var p :| && p in r && p.analysisId in depth && depth[p.analysisId] < depth[x.analysisId]
               && IsChildOf(analyses, x.analysisId, p.analysisId) && x.taxonomicGroup == p.taxonomicGroup;
      RankedRootGroup(r, roots, analyses, depth, p);
    }
  }

  /** Every entry of an inherited result carries the taxonomic group of one of the roots in it. */
  lemma InheritedRootGroup(r: set<AnalysisTaxonomicGroup>, roots: seq<AnalysisTaxonomicGroup>, analyses: seq<Analysis>,
                           x: AnalysisTaxonomicGroup)
    requires Inherited(r, roots, analyses) && x in r
    ensures exists g :: g in roots && g in r && g.taxonomicGroup == x.taxonomicGroup
  {
    var depth: map<int, nat> :| RankedFromRoots(r, roots, analyses, depth);
    RankedRootGroup(r, roots, analyses, depth, x);
  }

  // ---------------------------------------------------------------- loop invariants

  predicate KeyedById(flattened: map<int, AnalysisTaxonomicGroup>) {
    forall k :: k in flattened ==> flattened[k].analysisId == k
  }

  /** The entries of the flattened set, one per id it is keyed by. */
  function Entries(flattened: map<int, AnalysisTaxonomicGroup>): set<AnalysisTaxonomicGroup> {
    set k | k in flattened :: flattened[k]
  }

  /** `id` is already flattened or still waiting in the queue. */
  predicate Covered(id: int, flattened: map<int, AnalysisTaxonomicGroup>, queue: seq<AnalysisTaxonomicGroup>) {
    id in flattened || exists j :: 0 <= j < |queue| && queue[j].analysisId == id
  }

  /** `g` is a root or was enqueued as the child of a flattened entry, with its group. */
  predicate Origin(g: AnalysisTaxonomicGroup, flattened: map<int, AnalysisTaxonomicGroup>,
                   roots: seq<AnalysisTaxonomicGroup>, analyses: seq<Analysis>) {
    g in roots ||
    exists k :: k in flattened && IsChildOf(analyses, g.analysisId, k) && g.taxonomicGroup == flattened[k].taxonomicGroup
  }

  /** All ids the traversal can meet. */
  function Universe(roots: seq<AnalysisTaxonomicGroup>, analyses: seq<Analysis>): set<int> {
    (set g | g in roots :: g.analysisId) + (set a | a in analyses :: a.analysisId)
  }

  predicate Pending(flattened: map<int, AnalysisTaxonomicGroup>, queue: seq<AnalysisTaxonomicGroup>,
                    roots: seq<AnalysisTaxonomicGroup>, analyses: seq<Analysis>) {
    && KeyedById(flattened)
    && flattened.Keys <= Universe(roots, analyses)
    && (forall j :: 0 <= j < |queue| ==> queue[j].analysisId in Universe(roots, analyses))
    && (forall i :: 0 <= i < |roots| ==> Covered(roots[i].analysisId, flattened, queue))
    && (forall k, i :: k in flattened && 0 <= i < |analyses| && analyses[i].analysisParentId == Some(k) ==>
          Covered(analyses[i].analysisId, flattened, queue))
    && (forall k :: k in flattened ==> Origin(flattened[k], flattened, roots, analyses))
    && (forall j :: 0 <= j < |queue| ==> Origin(queue[j], flattened, roots, analyses))
  }

  /** Taking an entry off the queue that flattening already holds keeps everything pending. */
  lemma DequeueKnown(flattened: map<int, AnalysisTaxonomicGroup>, queue: seq<AnalysisTaxonomicGroup>,
                     roots: seq<AnalysisTaxonomicGroup>, analyses: seq<Analysis>)
    requires |queue| > 0 && queue[0].analysisId in flattened
    requires Pending(flattened, queue, roots, analyses)
    ensures Pending(flattened, queue[1..], roots, analyses)
  {
    forall id | Covered(id, flattened, queue) ensures Covered(id, flattened, queue[1..]) {
      if id !in flattened {
        var j :| 0 <= j < |queue| && queue[j].analysisId == id;
        assert j > 0 && queue[1..][j - 1] == queue[j];
      }
    }
    forall j | 0 <= j < |queue[1..]| ensures Origin(queue[1..][j], flattened, roots, analyses) {
      assert queue[1..][j] == queue[j + 1];
    }
  }

  /** An id covered before the step is covered after it. */
  lemma CoveredAfterStep(id: int, flattened: map<int, AnalysisTaxonomicGroup>, queue: seq<AnalysisTaxonomicGroup>,
                         children: seq<AnalysisTaxonomicGroup>)
    requires |queue| > 0 && Covered(id, flattened, queue)
    ensures Covered(id, flattened[queue[0].analysisId := queue[0]], queue[1..] + children)
  {
    var q' := queue[1..] + children;
    if id !in flattened && id != queue[0].analysisId {
      var j :| 0 <= j < |queue| && queue[j].analysisId == id;
      assert j > 0 && q'[j - 1] == queue[j];
    }
  }

  /** A child of the entry just flattened is waiting among its child entries. */
  lemma ChildCoveredAfterStep(flattened: map<int, AnalysisTaxonomicGroup>, queue: seq<AnalysisTaxonomicGroup>,
                              analyses: seq<Analysis>, i: int)
    requires |queue| > 0 && 0 <= i < |analyses| && analyses[i].analysisParentId == Some(queue[0].analysisId)
    ensures Covered(analyses[i].analysisId, flattened[queue[0].analysisId := queue[0]],
                    queue[1..] + ChildEntries(analyses, queue[0]))
  {
    var atg := queue[0];
    var children := ChildEntries(analyses, atg);
    var q' := queue[1..] + children;
    var c := AnalysisTaxonomicGroup(analyses[i].analysisId, atg.taxonomicGroup);
    assert c in children;
    var j :| 0 <= j < |children| && children[j] == c;
    assert q'[|queue| - 1 + j] == c;
  }

  /** Flattening one more entry keeps every origin. */
  lemma OriginAfterStep(g: AnalysisTaxonomicGroup, flattened: map<int, AnalysisTaxonomicGroup>, atg: AnalysisTaxonomicGroup,
                        roots: seq<AnalysisTaxonomicGroup>, analyses: seq<Analysis>)
    requires atg.analysisId !in flattened && Origin(g, flattened, roots, analyses)
    ensures Origin(g, flattened[atg.analysisId := atg], roots, analyses)
  {
    if g !in roots {
      var k :| k in flattened && IsChildOf(analyses, g.analysisId, k) && g.taxonomicGroup == flattened[k].taxonomicGroup;
      assert k != atg.analysisId && flattened[atg.analysisId := atg][k] == flattened[k];
    }
  }

  /** The child entries of a flattened entry have their origin in it. */
  lemma ChildEntriesOrigin(flattened: map<int, AnalysisTaxonomicGroup>, atg: AnalysisTaxonomicGroup,
                           roots: seq<AnalysisTaxonomicGroup>, analyses: seq<Analysis>)
    requires atg.analysisId in flattened && flattened[atg.analysisId] == atg
    ensures var children := ChildEntries(analyses, atg);
            forall j :: 0 <= j < |children| ==> Origin(children[j], flattened, roots, analyses)
  {
    var children := ChildEntries(analyses, atg);
    forall j | 0 <= j < |children| ensures Origin(children[j], flattened, roots, analyses) {
      assert children[j] in children;
    }
  }

  /** The child entries of an entry hold ids of the universe. */
  lemma ChildEntriesInUniverse(atg: AnalysisTaxonomicGroup, roots: seq<AnalysisTaxonomicGroup>, analyses: seq<Analysis>)
    ensures var children := ChildEntries(analyses, atg);
            forall j :: 0 <= j < |children| ==> children[j].analysisId in Universe(roots, analyses)
  {
    var children := ChildEntries(analyses, atg);
    forall j | 0 <= j < |children| ensures children[j].analysisId in Universe(roots, analyses) {
      assert children[j] in children;
      var i :| 0 <= i < |analyses| && analyses[i].analysisId == children[j].analysisId
               && analyses[i].analysisParentId == Some(atg.analysisId);
      assert analyses[i] in analyses;
    }
  }

  /** The queue half of DequeueNew: the new queue holds ids of the universe, each with its origin. */
  lemma DequeueNewQueue(flattened: map<int, AnalysisTaxonomicGroup>, queue: seq<AnalysisTaxonomicGroup>,
                        roots: seq<AnalysisTaxonomicGroup>, analyses: seq<Analysis>, f': map<int, AnalysisTaxonomicGroup>,
                        q': seq<AnalysisTaxonomicGroup>)
    requires |queue| > 0 && queue[0].analysisId !in flattened
    requires forall j :: 0 <= j < |queue| ==> queue[j].analysisId in Universe(roots, analyses)
    requires forall j :: 0 <= j < |queue| ==> Origin(queue[j], flattened, roots, analyses)
    requires f' == flattened[queue[0].analysisId := queue[0]] && q' == queue[1..] + ChildEntries(analyses, queue[0])
    ensures forall j :: 0 <= j < |q'| ==> q'[j].analysisId in Universe(roots, analyses)
    ensures forall j :: 0 <= j < |q'| ==> Origin(q'[j], f', roots, analyses)
  {
    var atg := queue[0];
    var children := ChildEntries(analyses, atg);
    ChildEntriesInUniverse(atg, roots, analyses);
    ChildEntriesOrigin(f', atg, roots, analyses);
    forall j | 0 <= j < |q'|
      ensures q'[j].analysisId in Universe(roots, analyses) && Origin(q'[j], f', roots, analyses)
    {
      if j < |queue| - 1 {
        assert q'[j] == queue[j + 1];
        OriginAfterStep(queue[j + 1], flattened, atg, roots, analyses);
      } else {
        assert q'[j] == children[j - (|queue| - 1)];
      }
    }
  }

  /** The flattened half of DequeueNew: coverage of roots and children, and the origins of entries. */
  lemma DequeueNewFlattened(flattened: map<int, AnalysisTaxonomicGroup>, queue: seq<AnalysisTaxonomicGroup>,
                            roots: seq<AnalysisTaxonomicGroup>, analyses: seq<Analysis>, f': map<int, AnalysisTaxonomicGroup>,
                            q': seq<AnalysisTaxonomicGroup>)
    requires |queue| > 0 && queue[0].analysisId !in flattened
    requires Pending(flattened, queue, roots, analyses)
    requires f' == flattened[queue[0].analysisId := queue[0]] && q' == queue[1..] + ChildEntries(analyses, queue[0])
    ensures forall i :: 0 <= i < |roots| ==> Covered(roots[i].analysisId, f', q')
    ensures forall k, i :: k in f' && 0 <= i < |analyses| && analyses[i].analysisParentId == Some(k) ==>
              Covered(analyses[i].analysisId, f', q')
    ensures forall k :: k in f' ==> Origin(f'[k], f', roots, analyses)
  {
    var atg := queue[0];
    var children := ChildEntries(analyses, atg);
    forall i | 0 <= i < |roots| ensures Covered(roots[i].analysisId, f', q') {
      CoveredAfterStep(roots[i].analysisId, flattened, queue, children);
    }
    forall k, i | k in f' && 0 <= i < |analyses| && analyses[i].analysisParentId == Some(k)
      ensures Covered(analyses[i].analysisId, f', q')
    {
      if k == atg.analysisId {
        ChildCoveredAfterStep(flattened, queue, analyses, i);
      } else {
        CoveredAfterStep(analyses[i].analysisId, flattened, queue, children);
      }
    }
    forall k | k in f' ensures Origin(f'[k], f', roots, analyses) {
      if k == atg.analysisId {
        OriginAfterStep(queue[0], flattened, atg, roots, analyses);
      } else {
        OriginAfterStep(flattened[k], flattened, atg, roots, analyses);
      }
    }
  }

  /** Flattening a new entry and enqueueing its children keeps everything pending. */
  lemma DequeueNew(flattened: map<int, AnalysisTaxonomicGroup>, queue: seq<AnalysisTaxonomicGroup>,
                   roots: seq<AnalysisTaxonomicGroup>, analyses: seq<Analysis>)
    requires |queue| > 0 && queue[0].analysisId !in flattened
    requires Pending(flattened, queue, roots, analyses)
    ensures var atg := queue[0];
            Pending(flattened[atg.analysisId := atg], queue[1..] + ChildEntries(analyses, atg), roots, analyses)
  {
    var atg := queue[0];
    var f' := flattened[atg.analysisId := atg];
    var q' := queue[1..] + ChildEntries(analyses, atg);
    DequeueNewQueue(flattened, queue, roots, analyses, f', q');
    DequeueNewFlattened(flattened, queue, roots, analyses, f', q');
  }

  /**
   * The loop's ranking: every flattened entry is a root, or was enqueued by a flattened
   * entry of smaller depth whose taxonomic group it carries.
   */
  predicate Ranked(flattened: map<int, AnalysisTaxonomicGroup>, roots: seq<AnalysisTaxonomicGroup>,
                   analyses: seq<Analysis>, depth: map<int, nat>) {
    && flattened.Keys <= depth.Keys
    && forall k :: k in flattened ==>
         flattened[k] in roots ||
         exists p :: && p in flattened && depth[p] < depth[k]
                     && IsChildOf(analyses, flattened[k].analysisId, p) && flattened[k].taxonomicGroup == flattened[p].taxonomicGroup
  }

  /** Flattening `atg` at depth `d`, below an entry of smaller depth unless it is a root, keeps the ranking. */
  lemma RankedAfterStep(flattened: map<int, AnalysisTaxonomicGroup>, atg: AnalysisTaxonomicGroup,
                        roots: seq<AnalysisTaxonomicGroup>, analyses: seq<Analysis>, depth: map<int, nat>, d: nat)
    requires atg.analysisId !in flattened && Ranked(flattened, roots, analyses, depth)
    requires atg in roots ||
             exists p :: && p in flattened && depth[p] < d
                         && IsChildOf(analyses, atg.analysisId, p) && atg.taxonomicGroup == flattened[p].taxonomicGroup
    ensures Ranked(flattened[atg.analysisId := atg], roots, analyses, depth[atg.analysisId := d])
  {
    var f', depth' := flattened[atg.analysisId := atg], depth[atg.analysisId := d];
    forall k | k in f' && f'[k] !in roots
      ensures exists p :: && p in f' && depth'[p] < depth'[k]
                          && IsChildOf(analyses, f'[k].analysisId, p) && f'[k].taxonomicGroup == f'[p].taxonomicGroup
    {
      if k == atg.analysisId {
        var p :| && p in flattened && depth[p] < d
                 && IsChildOf(analyses, atg.analysisId, p) && atg.taxonomicGroup == flattened[p].taxonomicGroup;
        assert p != atg.analysisId && f'[p] == flattened[p] && depth'[p] == depth[p];
      } else {
        var p :| && p in flattened && depth[p] < depth[k]
                 && IsChildOf(analyses, flattened[k].analysisId, p) && flattened[k].taxonomicGroup == flattened[p].taxonomicGroup;
        assert p != atg.analysisId && f'[p] == flattened[p] && depth'[p] == depth[p];
      }
    }
  }

  /** Ids still to flatten shrink by one when a new entry is flattened. */
  lemma RemainingShrinks(U: set<int>, keys: set<int>, id: int)
    requires id in U && id !in keys
    ensures |U - (keys + {id})| < |U - keys|
  {
    assert U - keys == (U - (keys + {id})) + {id};
  }

  /** Keyed by id, the flattened entries share no id. */
  lemma FinishedNoSharedIds(flattened: map<int, AnalysisTaxonomicGroup>)
    requires KeyedById(flattened)
    ensures NoSharedIds(Entries(flattened))
  {
  }

  /** With the queue empty, every root is flattened. */
  lemma FinishedCoversRoots(flattened: map<int, AnalysisTaxonomicGroup>, roots: seq<AnalysisTaxonomicGroup>)
    requires KeyedById(flattened)
    requires forall i :: 0 <= i < |roots| ==> Covered(roots[i].analysisId, flattened, [])
    ensures CoversRoots(Entries(flattened), roots)
  {
    var r := Entries(flattened);
    forall i | 0 <= i < |roots| ensures HasId(r, roots[i].analysisId) {
      assert flattened[roots[i].analysisId] in r;
    }
  }

  /** With the queue empty, every child of a flattened entry is flattened. */
  lemma FinishedClosedUnderChildren(flattened: map<int, AnalysisTaxonomicGroup>, analyses: seq<Analysis>)
    requires KeyedById(flattened)
    requires forall k, i :: k in flattened && 0 <= i < |analyses| && analyses[i].analysisParentId == Some(k) ==>
               Covered(analyses[i].analysisId, flattened, [])
    ensures ClosedUnderChildren(Entries(flattened), analyses)
  {
    var r := Entries(flattened);
    forall x, i | x in r && 0 <= i < |analyses| && analyses[i].analysisParentId == Some(x.analysisId)
      ensures HasId(r, analyses[i].analysisId)
    {
      var k :| k in flattened && flattened[k] == x;
      assert flattened[analyses[i].analysisId] in r;
    }
  }

  /** The ranking of the loop ranks the flattened entries from the roots. */
  lemma FinishedInherited(flattened: map<int, AnalysisTaxonomicGroup>, roots: seq<AnalysisTaxonomicGroup>,
                          analyses: seq<Analysis>, depth: map<int, nat>)
    requires KeyedById(flattened) && Ranked(flattened, roots, analyses, depth)
    ensures RankedFromRoots(Entries(flattened), roots, analyses, depth)
  {
    var r := Entries(flattened);
    forall x | x in r
      ensures && x.analysisId in depth
              && (x in roots ||
                  exists p :: && p in r && p.analysisId in depth && depth[p.analysisId] < depth[x.analysisId]
                              && IsChildOf(analyses, x.analysisId, p.analysisId) && x.taxonomicGroup == p.taxonomicGroup)
    {
      var k :| k in flattened && flattened[k] == x;
      if x !in roots {
        var p :| && p in flattened && depth[p] < depth[k]
                 && IsChildOf(analyses, flattened[k].analysisId, p) && flattened[k].taxonomicGroup == flattened[p].taxonomicGroup;
        assert flattened[p] in r && flattened[p].analysisId == p;
      }
    }
  }

  /** The flattened entries, once the queue is empty. */
  lemma Finished(flattened: map<int, AnalysisTaxonomicGroup>, roots: seq<AnalysisTaxonomicGroup>, analyses: seq<Analysis>,
                 depth: map<int, nat>)
    requires Pending(flattened, [], roots, analyses) && Ranked(flattened, roots, analyses, depth)
    ensures var r := Entries(flattened);
            NoSharedIds(r) && CoversRoots(r, roots) && ClosedUnderChildren(r, analyses) && Inherited(r, roots, analyses)
  {
    FinishedNoSharedIds(flattened);
    FinishedCoversRoots(flattened, roots);
    FinishedClosedUnderChildren(flattened, analyses);
    FinishedInherited(flattened, roots, analyses, depth);
  }

  /** Two paths to one analysis: root 1 (group "A") has children 2 and 3, both parents of 4. */
  const SharedRoots := [AnalysisTaxonomicGroup(1, Some("A"))]
  const SharedAnalyses := [Analysis(2, Some(1)), Analysis(3, Some(1)), Analysis(4, Some(2)), Analysis(4, Some(3))]

  /** A result covering root 1 and closed under children holds analysis 4. */
  lemma SharedFourPresent(r: set<AnalysisTaxonomicGroup>)
    requires CoversRoots(r, SharedRoots) && ClosedUnderChildren(r, SharedAnalyses)
    ensures HasId(r, 4)
  {
    assert HasId(r, SharedRoots[0].analysisId);
    var one :| one in r && one.analysisId == 1;
    assert SharedAnalyses[0].analysisParentId == Some(one.analysisId);
    assert HasId(r, SharedAnalyses[0].analysisId);
    var two :| two in r && two.analysisId == 2;
    assert SharedAnalyses[2].analysisParentId == Some(two.analysisId);
  }

  /** In an inherited result below root 1, every entry carries the root's group "A". */
  lemma SharedEntryGroup(r: set<AnalysisTaxonomicGroup>, x: AnalysisTaxonomicGroup)
    requires Inherited(r, SharedRoots, SharedAnalyses) && x in r
    ensures x.taxonomicGroup == Some("A")
  {
    InheritedRootGroup(r, SharedRoots, SharedAnalyses, x);
    var g :| g in SharedRoots && g in r && g.taxonomicGroup == x.taxonomicGroup;
    assert g == SharedRoots[0];
  }

  /** Any result with the four properties holds analysis 4 exactly once, carrying group "A". */
  lemma SharedSubtreeOnce(r: set<AnalysisTaxonomicGroup>)
    requires NoSharedIds(r) && CoversRoots(r, SharedRoots)
    requires ClosedUnderChildren(r, SharedAnalyses) && Inherited(r, SharedRoots, SharedAnalyses)
    ensures exists x :: x in r && x.analysisId == 4 && x.taxonomicGroup == Some("A")
    ensures forall x, y :: x in r && y in r && x.analysisId == 4 && y.analysisId == 4 ==> x == y
  {
    SharedFourPresent(r);
    var four :| four in r && four.analysisId == 4;
    SharedEntryGroup(r, four);
  }

  /** A cycle below root 1: analysis 5 is a child of 1 and of 6, and 6 a child of 5. */
  const CycleAnalyses := [Analysis(5, Some(1)), Analysis(5, Some(6)), Analysis(6, Some(5))]

  /**
   * A cycle cannot lend its entries a group of their own: neither the cycle reached from
   * root 1 nor a cycle unreachable from it may carry a group other than the root's.
   */
  lemma CyclesKeepRootGroup()
    ensures !Inherited({AnalysisTaxonomicGroup(1, Some("A")), AnalysisTaxonomicGroup(5, Some("B")), AnalysisTaxonomicGroup(6, Some("B"))},
                       SharedRoots, CycleAnalyses)
    ensures !Inherited({AnalysisTaxonomicGroup(1, Some("A")), AnalysisTaxonomicGroup(5, Some("X")), AnalysisTaxonomicGroup(6, Some("X"))},
                       SharedRoots, CycleAnalyses[1..])
  {
    var reached := {AnalysisTaxonomicGroup(1, Some("A")), AnalysisTaxonomicGroup(5, Some("B")), AnalysisTaxonomicGroup(6, Some("B"))};
    if Inherited(reached, SharedRoots, CycleAnalyses) {
      InheritedRootGroup(reached, SharedRoots, CycleAnalyses, AnalysisTaxonomicGroup(5, Some("B")));
      assert false;
    }
    var unreached := {AnalysisTaxonomicGroup(1, Some("A")), AnalysisTaxonomicGroup(5, Some("X")), AnalysisTaxonomicGroup(6, Some("X"))};
    if Inherited(unreached, SharedRoots, CycleAnalyses[1..]) {
      InheritedRootGroup(unreached, SharedRoots, CycleAnalyses[1..], AnalysisTaxonomicGroup(5, Some("X")));
      assert false;
    }
  }

  /** Before the first step every root is waiting in the queue. */
  lemma Start(roots: seq<AnalysisTaxonomicGroup>, analyses: seq<Analysis>)
    ensures Pending(map[], roots, roots, analyses)
  {
    forall j | 0 <= j < |roots| ensures roots[j].analysisId in Universe(roots, analyses) {
      assert roots[j] in roots;
    }
  }

  /** The inner foreach: appends the child entries of `atg` to the queue, in order. */
  method EnqueueChildren(queue: seq<AnalysisTaxonomicGroup>, analyses: seq<Analysis>, atg: AnalysisTaxonomicGroup)
    returns (queue': seq<AnalysisTaxonomicGroup>)
    ensures queue' == queue + ChildEntries(analyses, atg)
  {
    queue' := queue;
    var j := 0;
    while j < |analyses|
      invariant 0 <= j <= |analyses|
      invariant queue' == queue + ChildEntries(analyses[..j], atg)
    {
      assert analyses[..j + 1][..j] == analyses[..j];
      if analyses[j].analysisParentId == Some(atg.analysisId) {
        queue' := queue' + [AnalysisTaxonomicGroup(analyses[j].analysisId, atg.taxonomicGroup)];
      }
      j := j + 1;
    }
    assert analyses[..j] == analyses;
  }

  /**
   * The traversal: dequeue an entry; if its analysis was not flattened yet, flatten it and
   * enqueue its child analyses carrying its taxonomic group; an entry whose analysis is
   * already flattened is dropped with its children, so shared and cyclic ancestry terminate.
   */
  method Flatten(roots: seq<AnalysisTaxonomicGroup>, analyses: seq<Analysis>) returns (r: set<AnalysisTaxonomicGroup>)
    ensures NoSharedIds(r)
    ensures CoversRoots(r, roots)
    ensures ClosedUnderChildren(r, analyses)
    ensures Inherited(r, roots, analyses)
  {
    var atgs := roots;
    var flattened: map<int, AnalysisTaxonomicGroup> := map[];
    ghost var U := Universe(roots, analyses);
    // How many child steps below a root each flattened entry was reached.
    ghost var depth: map<int, nat> := map[];
    Start(roots, analyses);

    while |atgs| > 0
      invariant Pending(flattened, atgs, roots, analyses)
      invariant Ranked(flattened, roots, analyses, depth)
      decreases |U - flattened.Keys|, |atgs|
    {
      var atg := atgs[0];
      if atg.analysisId in flattened {
        DequeueKnown(flattened, atgs, roots, analyses);
        atgs := atgs[1..];
      } else {
        DequeueNew(flattened, atgs, roots, analyses);
        RemainingShrinks(U, flattened.Keys, atg.analysisId);
        ghost var d: nat := 0;
        if atg !in roots {
          assert Origin(atgs[0], flattened, roots, analyses);
          ghost var k :| k in flattened && IsChildOf(analyses, atg.analysisId, k) && atg.taxonomicGroup == flattened[k].taxonomicGroup;
          d := depth[k] + 1;
        }
        RankedAfterStep(flattened, atg, roots, analyses, depth, d);
        depth := depth[atg.analysisId := d];
        flattened := flattened[atg.analysisId := atg];
        atgs := EnqueueChildren(atgs[1..], analyses, atg);
      }
    }
    Finished(flattened, roots, analyses, depth);
    r := Entries(flattened);
  }

  /**
   * What the project's queries return over the caller's connection: its root entries and
   * its analyses, in that order; a missing repository or a failing query propagates.
   */
  function ProjectHierarchy(config: ServiceConfiguration, b: Backend, projectId: int, login: UserCredentials)
    : Result<(seq<AnalysisTaxonomicGroup>, seq<Analysis>)>
  {
    match GetConnection(config, login, None)
    case Err(e) => Err(e)
    case Ok(t) =>
      match b.analysisTaxonomicGroups(t, projectId)
      case Err(e) => Err(e)
      case Ok(roots) =>
        match b.analyses(t, projectId)
        case Err(e) => Err(e)
        case Ok(analyses) => Ok((roots, analyses))
  }

  /** GetAnalysisTaxonomicGroupsForProject: the project's root entries, flattened over its analyses. */
  method GetAnalysisTaxonomicGroupsForProject(config: ServiceConfiguration, b: Backend, projectId: int, login: UserCredentials)
    returns (r: Result<set<AnalysisTaxonomicGroup>>)
    ensures r.Err? <==> ProjectHierarchy(config, b, projectId, login).Err?
    ensures r.Err? ==> r.error == ProjectHierarchy(config, b, projectId, login).error
    ensures r.Ok? ==>
              var (roots, analyses) := ProjectHierarchy(config, b, projectId, login).value;
              && NoSharedIds(r.value)
              && CoversRoots(r.value, roots)
              && ClosedUnderChildren(r.value, analyses)
              && Inherited(r.value, roots, analyses)
  {
    var db := GetConnection(config, login, None);
    if db.Err? {
      return Err(db.error);
    }
    var atgs := b.analysisTaxonomicGroups(db.value, projectId);
    if atgs.Err? {
      return Err(atgs.error);
    }
    var analyses := b.analyses(db.value, projectId);
    if analyses.Err? {
      return Err(analyses.error);
    }
    var flattened := Flatten(atgs.value, analyses.value);
    r := Ok(flattened);
  }
}
