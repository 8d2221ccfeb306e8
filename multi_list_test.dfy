/**
  The scenarios of the MultiList tests, as verified methods: each one builds
  the fixture (a MultiList over two empty, non-stale children), performs the
  test's mutations and returns what the test observes, and its postcondition
  is what the test asserts.  The delegate used by the list conformance suite
  is modelled by CreateObservableCollection, Change and SetStale.
*/
module MultiListScenarios {
  import opened MultiLists

  /** The contents of a MultiList over two children. */
  lemma ConcatPair<T>(a: seq<T>, b: seq<T>)
    ensures Concat([a, b]) == a + b
  {
    assert [a, b][..1] == [a];
    assert [a][..0] == [];
    assert Concat([a]) == Concat<T>([]) + a;
  }

  /** The fixture: a MultiList over two new, empty, non-stale children. */
  method SetUp<T>() returns (m: MultiList<T>)
    ensures fresh(m) && m.Valid()
    ensures m.subLists == [[], []] && m.staleFlags == [false, false]
    ensures m.changeLog == [] && m.staleEvents == 0
  {
    m := new MultiList([[], []], [false, false]);
  }

  /** The MultiList is stale exactly while its first child is. */
  method TestIsStaleFollowsSublist<T>() returns (before: bool, during: bool, after: bool)
    ensures !before && during && !after
  {
    var m: MultiList<T> := SetUp();
    before := m.IsStale();
    m.ChildSetStale(0, true);
    during := m.IsStale();
    m.ChildSetStale(0, false);
    after := m.IsStale();
  }

  /** Adding an element to the first child makes it the MultiList's only element. */
  method TestDependencyFiresListChange<T>(element: T) returns (before: seq<T>, after: seq<T>)
    ensures before == [] && after == [element]
  {
    var m: MultiList<T> := SetUp();
    ConcatPair<T>([], []);
    before := m.Contents();
    m.ChildAdd(0, element);
    ConcatPair([element], []);
    after := m.Contents();
  }

  /** With the first child already stale, the second child going stale fires no stale event. */
  method TestStaleEventNoFireEventIfAlreadyStale<T>() returns (fired: nat)
    ensures fired == 0
  {
    var m: MultiList<T> := SetUp();
    m.ChildSetStale(0, true);
    var eventsBefore := m.staleEvents;
    m.ChildSetStale(1, true);
    fired := m.staleEvents - eventsBefore;
  }

  /**
    Three adds (to child 0, child 1, child 0) fire one change event each, each
    with one addition entry carrying the added element, at global positions
    0, 1 and 1.
  */
  method TestModifySubListFiresListChangeEventFromMultiList<T>(element0: T, element1: T, element2: T)
    returns (counts: seq<nat>, diffs: seq<ListDiff<T>>)
    ensures counts == [1, 2, 3]
    ensures diffs == [[ListDiffEntry(0, true, element0)],
                      [ListDiffEntry(1, true, element1)],
                      [ListDiffEntry(1, true, element2)]]
  {
    var m: MultiList<T> := SetUp();
    m.ChildAdd(0, element0);
    assert m.subLists[0] == [element0] && m.subLists[1] == [];
    assert m.subLists == [[element0], []];
    counts, diffs := [|m.changeLog|], [m.changeLog[|m.changeLog| - 1]];
    m.ChildAdd(1, element1);
    assert m.subLists[0] == [element0] && m.subLists[1] == [element1];
    assert m.subLists == [[element0], [element1]];
    assert m.subLists[..1] == [[element0]];
    counts, diffs := counts + [|m.changeLog|], diffs + [m.changeLog[|m.changeLog| - 1]];
    m.ChildAdd(0, element2);
    assert m.subLists[..0] == [];
    counts, diffs := counts + [|m.changeLog|], diffs + [m.changeLog[|m.changeLog| - 1]];
  }

  /** The delegate's collection: a MultiList over two children with all `elementCount` elements in the first. */
  method CreateObservableCollection<T>(elementCount: nat, createElement: int -> T) returns (list: MultiList<T>)
    ensures fresh(list) && list.Valid()
    ensures list.subLists == [seq(elementCount, createElement), []]
    ensures list.Contents() == seq(elementCount, createElement) && list.Size() == elementCount
    ensures list.staleFlags == [false, false]
  {
    list := SetUp();
    assert seq(0, createElement) == [];
    for i := 0 to elementCount
      invariant list.Valid() && list.staleFlags == [false, false]
      invariant list.subLists == [seq(i, createElement), []]
    {
      list.ChildAdd(0, createElement(i));
      assert seq(i, createElement) + [createElement(i)] == seq(i + 1, createElement);
    }
    ConcatPair(seq(elementCount, createElement), []);
  }

  /** The delegate's change: one new element appended to the first child. */
  method Change<T>(list: MultiList<T>, element: T)
    requires list.Valid() && |list.subLists| >= 1
    modifies list
    ensures list.Valid()
    ensures list.subLists == old(list.subLists)[0 := old(list.subLists)[0] + [element]]
    ensures list.Size() == old(list.Size()) + 1
    ensures list.staleFlags == old(list.staleFlags) && list.staleEvents == old(list.staleEvents)
    ensures list.changeLog == old(list.changeLog) + [[ListDiffEntry(|old(list.subLists)[0]|, true, element)]]
    ensures Transforms(old(list.Contents()), list.changeLog[|list.changeLog| - 1], list.Contents())
  {
    list.ChildAdd(0, element);
    assert list.subLists[..0] == [];
  }

  /** The delegate's staleness switch: the first child's stale flag, which the MultiList then reports. */
  method SetStale<T>(list: MultiList<T>, stale: bool)
    requires list.Valid() && |list.subLists| >= 1
    modifies list
    ensures list.Valid()
    ensures list.staleFlags == old(list.staleFlags)[0 := stale]
    ensures list.subLists == old(list.subLists)
    ensures list.changeLog == old(list.changeLog)
    ensures list.IsStale() <==> stale || exists i :: 1 <= i < |list.staleFlags| && list.staleFlags[i]
    ensures (forall i :: 1 <= i < |list.staleFlags| ==> !list.staleFlags[i]) ==> list.IsStale() == stale
    ensures list.staleEvents == old(list.staleEvents) + if !old(list.IsStale()) && list.IsStale() then 1 else 0
  {
    list.ChildSetStale(0, stale);
  }
}
