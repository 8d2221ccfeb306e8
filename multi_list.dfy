/**
  The MultiList of the data-binding layer: an observable list whose contents
  are the concatenation of several child lists.  A change of child `c` is
  re-published as one change event whose diff positions are shifted by the
  sizes of the children before `c`; the MultiList is stale when any child is
  stale, and it fires a stale event only when it goes from not stale to stale.

  The children, their stale flags and the events the MultiList has emitted
  are the state of the class `MultiList`; each mutating method models one
  mutation of a child together with the MultiList's handling of the event
  that child fires.
*/
module MultiLists {

  /** One element-level edit: an addition or a removal at `position`. */
  datatype ListDiffEntry<T> = ListDiffEntry(position: nat, isAddition: bool, element: T)

  /** The entries of one change event, in the order they apply. */
  type ListDiff<T> = seq<ListDiffEntry<T>>

  /** Whether `e` can be applied to `s`: an addition at most at the end, a removal of an existing element. */
  ghost predicate Fits<T>(s: seq<T>, e: ListDiffEntry<T>)
  {
    if e.isAddition then e.position <= |s| else e.position < |s| && s[e.position] == e.element
  }

  /** The list `e` turns `s` into. */
  function ApplyEntry<T>(s: seq<T>, e: ListDiffEntry<T>): seq<T>
    requires Fits(s, e)
  {
    if e.isAddition then s[..e.position] + [e.element] + s[e.position..]
    else s[..e.position] + s[e.position + 1..]
  }

  /** `diff`, applied entry by entry, turns `s` into `t`. */
  ghost predicate Transforms<T>(s: seq<T>, diff: ListDiff<T>, t: seq<T>)
    decreases |diff|
  {
    if diff == [] then s == t
    else Fits(s, diff[0]) && Transforms(ApplyEntry(s, diff[0]), diff[1..], t)
  }

  /** Every entry of `diff` moved by `offset` positions. */
  function Rebase<T>(diff: ListDiff<T>, offset: nat): ListDiff<T>
  {
    if diff == [] then [] else [diff[0].(position := diff[0].position + offset)] + Rebase(diff[1..], offset)
  }

  /** The children's elements, child after child. */
  function Concat<T>(lists: seq<seq<T>>): seq<T>
  {
    if lists == [] then [] else Concat(lists[..|lists| - 1]) + lists[|lists| - 1]
  }

  /** The global position of the first element of child `c`: the total size of the children before it. */
  function Offset<T>(lists: seq<seq<T>>, c: nat): nat
    requires c <= |lists|
  {
    |Concat(lists[..c])|
  }

  /** True when at least one flag is set: the OR over the children's staleness. */
  function AnyStale(flags: seq<bool>): (r: bool)
    ensures r <==> exists i :: 0 <= i < |flags| && flags[i]
  {
    if flags == [] then false else flags[0] || AnyStale(flags[1..])
  }

  /** The concatenation splits around any child. */
  lemma {:induction false} ConcatSplit<T>(lists: seq<seq<T>>, c: nat)
    requires c < |lists|
    ensures Concat(lists) == Concat(lists[..c]) + lists[c] + Concat(lists[c + 1..])
    decreases |lists|
  {
    var n := |lists| - 1;
    var init := lists[..n];
    if c == n {
      assert lists[c + 1..] == [];
    } else {
      ConcatSplit(init, c);
      assert init[..c] == lists[..c];
      assert init[c] == lists[c];
      var rest := lists[c + 1..];
      assert rest[..|rest| - 1] == init[c + 1..];
      assert rest[|rest| - 1] == lists[n];
    }
  }

  /** Element `i` of child `c` is the element at global position Offset(c) + i. */
  lemma ElementAt<T>(lists: seq<seq<T>>, c: nat, i: nat)
    requires c < |lists| && i < |lists[c]|
    ensures Offset(lists, c) + i < |Concat(lists)|
    ensures Concat(lists)[Offset(lists, c) + i] == lists[c][i]
  {
    ConcatSplit(lists, c);
  }

  /** The children occupy consecutive, non-overlapping ranges: child `a` ends before child `b` starts. */
  lemma OffsetsOrdered<T>(lists: seq<seq<T>>, a: nat, b: nat)
    requires a < b <= |lists|
    ensures Offset(lists, a) + |lists[a]| <= Offset(lists, b)
  {
    var prefix := lists[..b];
    ConcatSplit(prefix, a);
    assert prefix[..a] == lists[..a];
  }

  /** Every global position lies in exactly one child, at the local index its offset gives. */
  lemma {:induction false} Locate<T>(lists: seq<seq<T>>, g: nat) returns (c: nat, i: nat)
    requires g < |Concat(lists)|
    ensures c < |lists| && i < |lists[c]| && g == Offset(lists, c) + i
    ensures Concat(lists)[g] == lists[c][i]
    ensures forall c' :: 0 <= c' < |lists| && Offset(lists, c') <= g < Offset(lists, c') + |lists[c']| ==> c' == c
    decreases |lists|
  {
    var n := |lists| - 1;
    var init := lists[..n];
    assert Concat(lists) == Concat(init) + lists[n];
    if g < |Concat(init)| {
      c, i := Locate(init, g);
      assert lists[..c] == init[..c];
    } else {
      c, i := n, g - |Concat(init)|;
    }
    ElementAt(lists, c, i);
    forall c' | 0 <= c' < |lists| && Offset(lists, c') <= g < Offset(lists, c') + |lists[c']|
      ensures c' == c
    {
      if c' < c {
        OffsetsOrdered(lists, c', c);
      } else if c < c' {
        OffsetsOrdered(lists, c, c');
      }
    }
  }

  /** Cutting the whole list at a position inside its middle part. */
  lemma SliceInContext<T>(pre: seq<T>, s: seq<T>, post: seq<T>, i: nat)
    requires i <= |s|
    ensures (pre + s + post)[..|pre| + i] == pre + s[..i]
    ensures (pre + s + post)[|pre| + i..] == s[i..] + post
  {
  }

  /** Applying an entry inside a middle part of a list is applying the shifted entry to the whole list. */
  lemma ApplyEntryInContext<T>(pre: seq<T>, s: seq<T>, post: seq<T>, e: ListDiffEntry<T>)
    requires Fits(s, e)
    ensures Fits(pre + s + post, e.(position := e.position + |pre|))
    ensures ApplyEntry(pre + s + post, e.(position := e.position + |pre|)) == pre + ApplyEntry(s, e) + post
  {
    var whole := pre + s + post;
    var moved := e.(position := e.position + |pre|);
    SliceInContext(pre, s, post, e.position);
    if e.isAddition {
      calc {
        ApplyEntry(whole, moved);
        (pre + s[..e.position]) + [e.element] + (s[e.position..] + post);
        pre + (s[..e.position] + [e.element] + s[e.position..]) + post;
      }
    } else {
      SliceInContext(pre, s, post, e.position + 1);
      assert whole[moved.position] == s[e.position];
      calc {
        ApplyEntry(whole, moved);
        (pre + s[..e.position]) + (s[e.position + 1..] + post);
        pre + (s[..e.position] + s[e.position + 1..]) + post;
      }
    }
  }

  /**
    Rebasing is sound: a diff that turns child contents `s` into `t` turns the
    whole list `pre + s + post` into `pre + t + post` once every position is
    shifted by the size of everything before the child.
  */
  lemma {:induction false} RebaseSound<T>(pre: seq<T>, s: seq<T>, post: seq<T>, diff: ListDiff<T>, t: seq<T>)
    requires Transforms(s, diff, t)
    ensures Transforms(pre + s + post, Rebase(diff, |pre|), pre + t + post)
    decreases |diff|
  {
    if diff != [] {
      var e := diff[0];
      var whole := pre + s + post;
      var rebased := Rebase(diff, |pre|);
      var applied := ApplyEntry(s, e);
      assert rebased[0] == e.(position := e.position + |pre|);
      assert rebased[1..] == Rebase(diff[1..], |pre|);
      ApplyEntryInContext(pre, s, post, e);
      RebaseSound(pre, applied, post, diff[1..], t);
      assert ApplyEntry(whole, rebased[0]) == pre + applied + post;
    }
  }

  /**
    Appending `x` to child `c`: the global entry sits at the new local index
    plus the offset of `c` computed on the sizes after the append, and that
    entry turns the old concatenation into the new one.
  */
  lemma AppendRebase<T>(lists: seq<seq<T>>, c: nat, x: T)
    requires c < |lists|
    ensures var after := lists[c := lists[c] + [x]];
      && Offset(after, c) == Offset(lists, c)
      && Offset(after, c) + |after[c]| - 1 == Offset(lists, c) + |lists[c]|
      && Transforms(Concat(lists), [ListDiffEntry(Offset(after, c) + |after[c]| - 1, true, x)], Concat(after))
  {
    var after := lists[c := lists[c] + [x]];
    var pre, post := Concat(lists[..c]), Concat(lists[c + 1..]);
    assert after[..c] == lists[..c];
    assert after[c + 1..] == lists[c + 1..];
    ConcatSplit(lists, c);
    ConcatSplit(after, c);
    var local := ListDiffEntry(|lists[c]|, true, x);
    ApplyEntryInContext(pre, lists[c], post, local);
    assert ApplyEntry(lists[c], local) == after[c];
    SingleEntry(Concat(lists), local.(position := local.position + |pre|), Concat(after));
  }

  /** A one-entry diff transforms `s` into the list its entry produces. */
  lemma SingleEntry<T>(s: seq<T>, e: ListDiffEntry<T>, t: seq<T>)
    requires Fits(s, e) && ApplyEntry(s, e) == t
    ensures Transforms(s, [e], t)
  {
    assert [e][1..] == [];
  }

  /**
    Edge-triggered staleness: setting flag `c` to `s` takes the aggregate from
    not stale to stale exactly when `s` is set and no flag was set before.
  */
  lemma StaleEdge(flags: seq<bool>, c: nat, s: bool)
    requires c < |flags|
    ensures (!AnyStale(flags) && AnyStale(flags[c := s])) <==> (s && forall i :: 0 <= i < |flags| ==> !flags[i])
    ensures AnyStale(flags[c := s]) <==> s || exists i :: 0 <= i < |flags| && i != c && flags[i]
  {
    var updated := flags[c := s];
    if s {
      assert updated[c];
    }
    if exists i :: 0 <= i < |flags| && i != c && flags[i] {
      var i :| 0 <= i < |flags| && i != c && flags[i];
      assert updated[i];
    }
    if AnyStale(updated) {
      var j :| 0 <= j < |updated| && updated[j];
      if j != c {
        assert flags[j];
      }
    }
  }

  /** A composite list over child lists, with the events it has emitted. */
  class MultiList<T> {
    /** The children's contents, in registration order. */
    var subLists: seq<seq<T>>
    /** The children's stale flags. */
    var staleFlags: seq<bool>
    /** The diff of every change event the MultiList fired, oldest first. */
    var changeLog: seq<ListDiff<T>>
    /** How many stale events the MultiList fired. */
    var staleEvents: nat

    ghost predicate Valid()
      reads this
    {
      |staleFlags| == |subLists|
    }

    /** What the MultiList shows: its children, concatenated. */
    function Contents(): seq<T>
      reads this
    {
      Concat(subLists)
    }

    function Size(): nat
      reads this
    {
      |Contents()|
    }

    /** Whether the MultiList reports itself stale. */
    /** The MultiList is stale exactly when some child is. */
    predicate IsStale()
      reads this
      ensures IsStale() <==> exists i :: 0 <= i < |staleFlags| && staleFlags[i]
    {
      AnyStale(staleFlags)
    }

    /** A MultiList over children with the given contents and stale flags; nothing has been fired yet. */
    constructor (lists: seq<seq<T>>, flags: seq<bool>)
      requires |flags| == |lists|
      ensures Valid()
      ensures subLists == lists && staleFlags == flags
      ensures changeLog == [] && staleEvents == 0
    {
      subLists := lists;
      staleFlags := flags;
      changeLog := [];
      staleEvents := 0;
    }

    /** The sum of the current sizes of the children before child `c`. */
    method ComputeOffset(c: nat) returns (offset: nat)
      requires c <= |subLists|
      ensures offset == Offset(subLists, c)
    {
      offset := 0;
      for i := 0 to c
        invariant offset == |Concat(subLists[..i])|
      {
        assert subLists[..i + 1][..i] == subLists[..i];
        offset := offset + |subLists[i]|;
      }
    }

    /** The OR over the children's stale flags, stopping at the first stale child. */
    method ComputeStaleness() returns (stale: bool)
      ensures stale == IsStale()
    {
      for i := 0 to |staleFlags|
        invariant forall j :: 0 <= j < i ==> !staleFlags[j]
      {
        if staleFlags[i] {
          return true;
        }
      }
      return false;
    }

    /**
      Child `c` appends `x` (WritableList.add) and reports the one-entry local
      diff; the MultiList re-fires it as one change event whose entry is moved
      by the offset of `c`.
    */
    method ChildAdd(c: nat, x: T)
      requires Valid() && c < |subLists|
      modifies this
      ensures Valid()
      ensures subLists == old(subLists)[c := old(subLists)[c] + [x]]
      ensures staleFlags == old(staleFlags) && staleEvents == old(staleEvents)
      ensures changeLog == old(changeLog) + [[ListDiffEntry(Offset(subLists, c) + |subLists[c]| - 1, true, x)]]
      ensures Transforms(old(Contents()), changeLog[|changeLog| - 1], Contents())
      ensures Size() == old(Size()) + 1
    {
      ghost var before := subLists;
      subLists := subLists[c := subLists[c] + [x]];
      var local := [ListDiffEntry(|subLists[c]| - 1, true, x)];
      var offset := ComputeOffset(c);
      assert Rebase(local, offset) == [ListDiffEntry(offset + |subLists[c]| - 1, true, x)];
      changeLog := changeLog + [Rebase(local, offset)];
      AppendRebase(before, c, x);
    }

    /**
      Child `c` sets its stale flag (WritableList.setStale).  The child fires a
      stale event only on its own not-stale to stale edge, and the MultiList
      passes it on only if it was not stale already.
    */
    method ChildSetStale(c: nat, stale: bool)
      requires Valid() && c < |subLists|
      modifies this
      ensures Valid()
      ensures staleFlags == old(staleFlags)[c := stale]
      ensures subLists == old(subLists) && changeLog == old(changeLog)
      ensures IsStale() <==> stale || exists i :: 0 <= i < |staleFlags| && i != c && staleFlags[i]
      ensures staleEvents == old(staleEvents) + if !old(IsStale()) && IsStale() then 1 else 0
    {
      var wasStale := ComputeStaleness();
      var childWasStale := staleFlags[c];
      StaleEdge(staleFlags, c, stale);
      staleFlags := staleFlags[c := stale];
      if !childWasStale && stale && !wasStale {
        staleEvents := staleEvents + 1;
      }
    }
  }
}
