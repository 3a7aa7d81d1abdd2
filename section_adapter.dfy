/**
 * `SectionAdapter`: the flattened list (`dataset`), the map from flat index to
 * section header (`sectionsMapping`), the six policy flags, the drag-step
 * check, submission of sections or bare nodes, and the collapse/expand
 * surgery of the section view holder. `differ.submitList(x)` is modelled as
 * the synchronous assignment `dataset := x`.
 */
module SectionAdapters {
  import opened Nodes
  import Extensions

  /** View types returned by `getItemViewType`. */
  const NODE: int := 0
  const SECTION: int := 1

  // ---------------------------------------------------------------------
  // Kotlin list operations used by the adapter

  /** `List.indexOf`: the first position holding `x`, or -1. */
  function IndexOf(s: seq<Node>, x: Node): (i: int)
    ensures -1 <= i < |s|
    ensures i == -1 <==> x !in s
    ensures 0 <= i ==> s[i] == x && x !in s[..i]
  {
    if s == [] then -1
    else if s[0] == x then 0
    else
      var j := IndexOf(s[1..], x);
      assert s[1..][..(if j < 0 then 0 else j)] == s[1..(if j < 0 then 1 else j + 1)];
      if j == -1 then -1 else j + 1
  }

  /** `indexOf` stops at the first occurrence: the one right after a prefix
      that does not hold `x`. */
  lemma {:induction false} IndexOfAfter(pre: seq<Node>, x: Node, post: seq<Node>)
    requires x !in pre
    ensures IndexOf(pre + [x] + post, x) == |pre|
  {
    if pre == [] {
      assert pre + [x] + post == [x] + post;
    } else {
      assert (pre + [x] + post)[1..] == pre[1..] + [x] + post;
      IndexOfAfter(pre[1..], x, post);
    }
  }

  /** In a list without repeated elements, `indexOf` of the item at `p` is `p`. */
  lemma IndexOfDistinct(s: seq<Node>, p: int)
    requires 0 <= p < |s|
    requires forall a, b :: 0 <= a < b < |s| ==> s[a] != s[b]
    ensures IndexOf(s, s[p]) == p
  {
    assert s == s[..p] + [s[p]] + s[p + 1..];
    IndexOfAfter(s[..p], s[p], s[p + 1..]);
  }

  /** `MutableList.removeAll(xs)`: drop every element that occurs in `xs`. */
  function RemoveAll(s: seq<Node>, xs: seq<Node>): (r: seq<Node>)
    ensures |r| <= |s|
  {
    if s == [] then []
    else (if s[0] in xs then [] else [s[0]]) + RemoveAll(s[1..], xs)
  }

  /** What survives `removeAll(xs)` is exactly what is in the list and not in `xs`. */
  lemma {:induction false} RemoveAllMember(s: seq<Node>, xs: seq<Node>, x: Node)
    ensures x in RemoveAll(s, xs) <==> x in s && x !in xs
  {
    if s != [] {
      assert x in s <==> x == s[0] || x in s[1..];
      RemoveAllMember(s[1..], xs, x);
    }
  }

  /** `removeAll` works element by element, so it distributes over concatenation:
      the survivors keep their relative order. */
  lemma {:induction false} RemoveAllConcat(a: seq<Node>, b: seq<Node>, xs: seq<Node>)
    ensures RemoveAll(a + b, xs) == RemoveAll(a, xs) + RemoveAll(b, xs)
  {
    if a == [] {
      assert a + b == b;
    } else {
      assert (a + b)[1..] == a[1..] + b;
      RemoveAllConcat(a[1..], b, xs);
    }
  }

  /** A list sharing no element with `xs` survives `removeAll(xs)` unchanged. */
  lemma {:induction false} RemoveAllDisjoint(s: seq<Node>, xs: seq<Node>)
    requires forall x :: x in s ==> x !in xs
    ensures RemoveAll(s, xs) == s
  {
    if s != [] {
      assert forall x :: x in s[1..] ==> x in s;
      RemoveAllDisjoint(s[1..], xs);
    }
  }

  /** A list whose every element is in `xs` is emptied by `removeAll(xs)`. */
  lemma {:induction false} RemoveAllCovered(s: seq<Node>, xs: seq<Node>)
    requires forall x :: x in s ==> x in xs
    ensures RemoveAll(s, xs) == []
  {
    if s != [] {
      assert s[0] in s;
      assert forall x :: x in s[1..] ==> x in s;
      RemoveAllCovered(s[1..], xs);
    }
  }

  // ---------------------------------------------------------------------
  // submitSections: the flat list and its header indices

  /** The list `submitSections` builds: each section followed by all its
      children, sections in order (children are always included). */
  function Flatten(sections: seq<SectionNode>): (r: seq<Node>)
    ensures |sections| <= |r|
  {
    if sections == [] then []
    else
      var last := sections[|sections| - 1];
      Flatten(sections[..|sections| - 1]) + [last] + last.nodes
  }

  /** The header map `submitSections` records: the index of each section's
      header in the flat list, mapped to the section. */
  function HeaderMap(sections: seq<SectionNode>): (r: map<int, Node>)
    ensures |r| <= |sections|
  {
    if sections == [] then map[]
    else
      var init := sections[..|sections| - 1];
      HeaderMap(init)[|Flatten(init)| := sections[|sections| - 1]]
  }

  /** Where section `j` should start: one slot for each earlier header and
      each earlier child (for `j == |sections|`, the total). */
  function Offset(sections: seq<SectionNode>, j: int): nat
    requires 0 <= j <= |sections|
  {
    if j == 0 then 0 else Offset(sections, j - 1) + 1 + |sections[j - 1].nodes|
  }

  /** Sum of `1 + |s.nodes|` over the sections, first to last. */
  function FlatSize(sections: seq<SectionNode>): nat
  {
    if sections == [] then 0 else 1 + |sections[0].nodes| + FlatSize(sections[1..])
  }

  /** The flat list starts with the first section and its children. */
  lemma {:induction false} FlattenFront(sections: seq<SectionNode>)
    requires sections != []
    ensures Flatten(sections) == [sections[0]] + sections[0].nodes + Flatten(sections[1..])
  {
    var n := |sections|;
    var first, last := sections[0], sections[n - 1];
    if n == 1 {
      assert sections[..0] == [];
      assert sections[1..] == [];
    } else {
      var init := sections[..n - 1];
      var tail := sections[1..];
      FlattenFront(init);
      assert init[0] == first;
      assert tail[..|tail| - 1] == init[1..];
      assert tail[|tail| - 1] == last;
      var mid := Flatten(init[1..]);
      assert Flatten(tail) == mid + [last] + last.nodes;
      calc {
        Flatten(sections);
        Flatten(init) + [last] + last.nodes;
        ([first] + first.nodes + mid) + [last] + last.nodes;
        { assert ([first] + first.nodes + mid) + [last] + last.nodes
              == [first] + first.nodes + (mid + [last] + last.nodes); }
        [first] + first.nodes + (mid + [last] + last.nodes);
      }
    }
  }

  /** `submitSections` yields `sum(1 + |s.nodes|)` items. */
  lemma {:induction false} FlattenLength(sections: seq<SectionNode>)
    ensures |Flatten(sections)| == FlatSize(sections)
  {
    if sections != [] {
      FlattenFront(sections);
      FlattenLength(sections[1..]);
    }
  }

  /** The flat list of a prefix of the sections is a prefix of the flat list. */
  lemma {:induction false} FlattenPrefix(sections: seq<SectionNode>, m: int)
    requires 0 <= m <= |sections|
    ensures Flatten(sections[..m]) <= Flatten(sections)
    decreases |sections| - m
  {
    if m < |sections| {
      FlattenPrefix(sections, m + 1);
      assert sections[..m + 1][..m] == sections[..m];
    } else {
      assert sections[..m] == sections;
    }
  }

  /** Offsets only look at the sections before them. */
  lemma {:induction false} OffsetOfPrefix(sections: seq<SectionNode>, m: int, j: int)
    requires 0 <= j <= m <= |sections|
    ensures Offset(sections[..m], j) == Offset(sections, j)
  {
    if j > 0 {
      OffsetOfPrefix(sections, m, j - 1);
    }
  }

  /** The flat list of the first `j` sections is `Offset(j)` long. */
  lemma {:induction false} FlattenPrefixLength(sections: seq<SectionNode>, j: int)
    requires 0 <= j <= |sections|
    ensures |Flatten(sections[..j])| == Offset(sections, j)
  {
    if j > 0 {
      var t := sections[..j];
      assert t[..j - 1] == sections[..j - 1];
      FlattenPrefixLength(sections, j - 1);
    }
  }

  /** Section `j` sits at `Offset(j)`, its children right after it, and the next
      section starts where they end. */
  lemma FlattenLayout(sections: seq<SectionNode>, j: int)
    requires 0 <= j < |sections|
    ensures Offset(sections, j + 1) <= |Flatten(sections)|
    ensures Flatten(sections)[Offset(sections, j)] == sections[j]
    ensures Flatten(sections)[Offset(sections, j) + 1..Offset(sections, j + 1)] == sections[j].nodes
  {
    var pre := sections[..j + 1];
    assert pre[..j] == sections[..j];
    FlattenPrefix(sections, j + 1);
    FlattenPrefixLength(sections, j);
    FlattenPrefixLength(sections, j + 1);
    assert Flatten(pre) == Flatten(sections[..j]) + [sections[j]] + sections[j].nodes;
  }

  /** The whole flat list is `Offset(|sections|)` long. */
  lemma FlattenTotal(sections: seq<SectionNode>)
    ensures |Flatten(sections)| == Offset(sections, |sections|)
  {
    assert sections[..|sections|] == sections;
    FlattenPrefixLength(sections, |sections|);
  }

  /** Header offsets grow strictly with the section index. */
  lemma {:induction false} OffsetMonotone(sections: seq<SectionNode>, a: int, b: int)
    requires 0 <= a < b <= |sections|
    ensures Offset(sections, a) < Offset(sections, b)
  {
    if a + 1 < b {
      OffsetMonotone(sections, a, b - 1);
    }
  }

  /** Every header offset is a key of the header map, mapped to its section. */
  lemma {:induction false} HeaderMapAt(sections: seq<SectionNode>, j: int)
    requires 0 <= j < |sections|
    ensures Offset(sections, j) in HeaderMap(sections)
    ensures HeaderMap(sections)[Offset(sections, j)] == sections[j]
  {
    var n := |sections|;
    var init := sections[..n - 1];
    FlattenPrefixLength(sections, n - 1);
    if j < n - 1 {
      HeaderMapAt(init, j);
      OffsetOfPrefix(sections, n - 1, j);
      OffsetMonotone(sections, j, n - 1);
    }
  }

  /** Every key of the header map is a header offset. */
  lemma {:induction false} HeaderMapKey(sections: seq<SectionNode>, k: int)
    requires k in HeaderMap(sections)
    ensures exists j :: 0 <= j < |sections| && k == Offset(sections, j)
  {
    var n := |sections|;
    var init := sections[..n - 1];
    FlattenPrefixLength(sections, n - 1);
    if k != |Flatten(init)| {
      HeaderMapKey(init, k);
      var j :| 0 <= j < n - 1 && k == Offset(init, j);
      OffsetOfPrefix(sections, n - 1, j);
    } else {
      assert k == Offset(sections, n - 1);
    }
  }

  /** After `submitSections`, every header index holds its own section. */
  lemma HeaderMapMatchesDataset(sections: seq<SectionNode>)
    ensures forall k :: k in HeaderMap(sections) ==> 0 <= k < |Flatten(sections)| && HeaderMap(sections)[k] == Flatten(sections)[k]
  {
    forall k | k in HeaderMap(sections) ensures 0 <= k < |Flatten(sections)| && HeaderMap(sections)[k] == Flatten(sections)[k] {
      HeaderMapKey(sections, k);
      var j :| 0 <= j < |sections| && k == Offset(sections, j);
      HeaderMapAt(sections, j);
      FlattenLayout(sections, j);
    }
  }

  /** No header index falls strictly inside the children of section `j`, and
      none lies past the last section's header. */
  lemma HeadersOutsideSection(sections: seq<SectionNode>, j: int)
    requires 0 <= j < |sections|
    ensures forall k :: k in HeaderMap(sections) ==> k <= Offset(sections, j) || k >= Offset(sections, j + 1)
    ensures forall k :: k in HeaderMap(sections) ==> k <= Offset(sections, |sections| - 1)
  {
    forall k | k in HeaderMap(sections)
      ensures (k <= Offset(sections, j) || k >= Offset(sections, j + 1)) && k <= Offset(sections, |sections| - 1)
    {
      HeaderMapKey(sections, k);
      var b :| 0 <= b < |sections| && k == Offset(sections, b);
      if b < j { OffsetMonotone(sections, b, j); }
      if b > j + 1 { OffsetMonotone(sections, j + 1, b); }
      if b < |sections| - 1 { OffsetMonotone(sections, b, |sections| - 1); }
    }
  }

  // ---------------------------------------------------------------------
  // findLimitsForNode

  /** A non-empty set has an element. */
  lemma NonEmptyHasElement(s: set<int>)
    requires s != {}
    ensures exists x :: x in s
  {
    assert (forall x :: x !in s) ==> s == {};
  }

  /** A finite non-empty set of integers has a largest element. */
  lemma {:induction false} LargestElement(s: set<int>) returns (m: int)
    requires s != {}
    ensures m in s && forall k :: k in s ==> k <= m
    decreases |s|
  {
    NonEmptyHasElement(s);
    var x :| x in s;
    var r := s - {x};
    assert forall k :: k in s ==> k == x || k in r;
    if r == {} {
      return x;
    }
    var y := LargestElement(r);
    m := if y < x then x else y;
  }

  /** A finite non-empty set of integers has a smallest element. */
  lemma {:induction false} SmallestElement(s: set<int>) returns (m: int)
    requires s != {}
    ensures m in s && forall k :: k in s ==> m <= k
    decreases |s|
  {
    NonEmptyHasElement(s);
    var x :| x in s;
    var r := s - {x};
    assert forall k :: k in s ==> k == x || k in r;
    if r == {} {
      return x;
    }
    var y := SmallestElement(r);
    m := if x < y then x else y;
  }

  lemma HasMax(s: set<int>)
    requires s != {}
    ensures exists m :: m in s && forall k :: k in s ==> k <= m
  {
    var m := LargestElement(s);
  }

  lemma HasMin(s: set<int>)
    requires s != {}
    ensures exists m :: m in s && forall k :: k in s ==> m <= k
  {
    var m := SmallestElement(s);
  }

  function MaxOf(s: set<int>): (m: int)
    requires s != {}
    ensures m in s && forall k :: k in s ==> k <= m
  {
    HasMax(s);
    var m :| m in s && forall k :: k in s ==> k <= m; m
  }

  function MinOf(s: set<int>): (m: int)
    requires s != {}
    ensures m in s && forall k :: k in s ==> m <= k
  {
    HasMin(s);
    var m :| m in s && forall k :: k in s ==> m <= k; m
  }

  /** The first limit `findLimitsForNode` computes for flat index `i`, given
      the header indices `keys`: one past the nearest header strictly before
      `i`, or 0 if there is none. */
  function LowerLimit(keys: set<int>, i: int): (lower: int)
    ensures (exists k :: k in keys && k < i) ==> lower - 1 in keys && lower - 1 < i
    ensures (forall k :: k in keys ==> k >= i) ==> lower == 0
    ensures forall k :: k in keys && k < i ==> k < lower
  {
    var below := set k | k in keys && k < i;
    assert forall k :: k in keys && k < i ==> k in below;
    if below == {} then 0 else MaxOf(below) + 1
  }

  /** The second limit `findLimitsForNode` computes for flat index `i`, given
      the header indices `keys` and the list length `size`: one before the
      nearest header strictly after `i`, or `size - 1` if there is none. */
  function UpperLimit(keys: set<int>, size: int, i: int): (upper: int)
    ensures (exists k :: k in keys && k > i) ==> upper + 1 in keys && upper + 1 > i
    ensures (forall k :: k in keys ==> k <= i) ==> upper == size - 1
    ensures forall k :: k in keys && k > i ==> k > upper
  {
    var above := set k | k in keys && k > i;
    assert forall k :: k in keys && k > i ==> k in above;
    (if above == {} then size else MinOf(above)) - 1
  }

  /** Both limits for flat index `i`: they enclose `i` whenever `i` is a
      position of the list, and no header other than `i` itself lies
      between them. */
  function LimitsAt(keys: set<int>, size: int, i: int): (lim: (int, int))
    ensures lim.0 == LowerLimit(keys, i) && lim.1 == UpperLimit(keys, size, i)
    ensures 0 <= i ==> lim.0 <= i
    ensures i < size ==> i <= lim.1
    ensures forall k :: k in keys && lim.0 <= k <= lim.1 ==> k == i
  {
    (LowerLimit(keys, i), UpperLimit(keys, size, i))
  }

  /** After `submitSections`, the limits of a child of section `j` are exactly
      the range of that section's children. */
  lemma SubmittedLimits(sections: seq<SectionNode>, j: int, p: int)
    requires 0 <= j < |sections|
    requires Offset(sections, j) < p < Offset(sections, j + 1)
    ensures LimitsAt(HeaderMap(sections).Keys, |Flatten(sections)|, p)
            == (Offset(sections, j) + 1, Offset(sections, j + 1) - 1)
  {
    SubmittedLower(sections, j, p);
    SubmittedUpper(sections, j, p);
  }

  /** The lower half of `SubmittedLimits`: the nearest header below is section `j`'s. */
  lemma SubmittedLower(sections: seq<SectionNode>, j: int, p: int)
    requires 0 <= j < |sections|
    requires Offset(sections, j) < p < Offset(sections, j + 1)
    ensures LowerLimit(HeaderMap(sections).Keys, p) == Offset(sections, j) + 1
  {
    var keys := HeaderMap(sections).Keys;
    var lower := LowerLimit(keys, p);
    HeaderMapAt(sections, j);
    HeadersOutsideSection(sections, j);
    assert Offset(sections, j) in keys;
    assert lower - 1 in keys && lower - 1 < p;
  }

  /** The upper half of `SubmittedLimits`: the nearest header above is section
      `j + 1`'s, or the list ends with section `j`'s last child. */
  lemma SubmittedUpper(sections: seq<SectionNode>, j: int, p: int)
    requires 0 <= j < |sections|
    requires Offset(sections, j) < p < Offset(sections, j + 1)
    ensures UpperLimit(HeaderMap(sections).Keys, |Flatten(sections)|, p) == Offset(sections, j + 1) - 1
  {
    var keys := HeaderMap(sections).Keys;
    var upper := UpperLimit(keys, |Flatten(sections)|, p);
    HeadersOutsideSection(sections, j);
    if j + 1 < |sections| {
      HeaderMapAt(sections, j + 1);
      assert Offset(sections, j + 1) in keys;
      assert upper + 1 in keys && p < upper + 1;
    } else {
      FlattenTotal(sections);
      assert forall k :: k in keys ==> k <= p;
    }
  }

  // ---------------------------------------------------------------------
  // collapse and expand

  /** The list `collapseSection` submits: every child of the section removed. */
  function Collapsed(dataset: seq<Node>, section: SectionNode): (r: seq<Node>)
    ensures |r| <= |dataset|
    ensures forall x :: x in section.nodes ==> x !in r
    ensures forall x :: x !in section.nodes ==> (x in r <==> x in dataset)
  {
    RemoveAllMembers(dataset, section.nodes);
    RemoveAll(dataset, section.nodes)
  }

  /** `RemoveAllMember` for every item at once. */
  lemma RemoveAllMembers(s: seq<Node>, xs: seq<Node>)
    ensures forall x :: x in RemoveAll(s, xs) <==> x in s && x !in xs
  {
    forall x ensures x in RemoveAll(s, xs) <==> x in s && x !in xs {
      RemoveAllMember(s, xs, x);
    }
  }

  /** The list `expandSection` submits: the section's children inserted in
      order right after the first occurrence of the section, or at the front
      when the section is absent. */
  function Expanded(dataset: seq<Node>, section: SectionNode): (r: seq<Node>)
    ensures |r| == |dataset| + |section.nodes|
    ensures section !in dataset ==> r == section.nodes + dataset
    ensures section in dataset ==>
      var p := IndexOf(dataset, section) + 1;
      r[..p] == dataset[..p] && r[p..p + |section.nodes|] == section.nodes && r[p + |section.nodes|..] == dataset[p..]
  {
    var p := IndexOf(dataset, section) + 1;
    dataset[..p] + section.nodes + dataset[p..]
  }

  /** Collapsing a section whose children occur only right after it leaves the
      list around them as it was. */
  lemma CollapsedLayout(pre: seq<Node>, section: SectionNode, post: seq<Node>)
    requires forall x :: x in pre ==> x !in section.nodes
    requires forall x :: x in post ==> x !in section.nodes
    ensures Collapsed(pre + [section] + section.nodes + post, section) == pre + [section] + post
  {
    var xs := section.nodes;
    var front := pre + [section];
    calc {
      RemoveAll(front + xs + post, xs);
    == { RemoveAllConcat(front + xs, post, xs); RemoveAllDisjoint(post, xs); }
      RemoveAll(front + xs, xs) + post;
    == { RemoveAllConcat(front, xs, xs); RemoveAllCovered(xs, xs); }
      RemoveAll(front, xs) + post;
    == { RemoveAllConcat(pre, [section], xs); RemoveAllDisjoint(pre, xs); HeaderSurvives(section); }
      pre + [section] + post;
    }
  }

  /** A section is not among its own children, so collapsing keeps its header. */
  lemma HeaderSurvives(section: SectionNode)
    ensures RemoveAll([section], section.nodes) == [section]
  {
    assert section !in section.nodes;
    assert [section][1..] == [];
  }

  /** Expanding a section that first occurs after `pre` puts its children right
      after it. */
  lemma ExpandedLayout(pre: seq<Node>, section: SectionNode, post: seq<Node>)
    requires section !in pre
    ensures Expanded(pre + [section] + post, section) == pre + [section] + section.nodes + post
  {
    var c := pre + [section] + post;
    IndexOfAfter(pre, section, post);
    assert c[..|pre| + 1] == pre + [section];
    assert c[|pre| + 1..] == post;
  }

  /** Collapse followed by expand restores the list, when the section occurs
      once before its children and no child occurs anywhere else. */
  lemma CollapseThenExpand(pre: seq<Node>, section: SectionNode, post: seq<Node>)
    requires section !in pre
    requires forall x :: x in pre ==> x !in section.nodes
    requires forall x :: x in post ==> x !in section.nodes
    ensures Expanded(Collapsed(pre + [section] + section.nodes + post, section), section)
            == pre + [section] + section.nodes + post
  {
    CollapsedLayout(pre, section, post);
    ExpandedLayout(pre, section, post);
  }

  // ---------------------------------------------------------------------
  // ItemDiffCallback

  /** `ItemDiffCallback.areItemsTheSame`: identity is decided by key alone. */
  function ItemsTheSame(oldItem: Node, newItem: Node): (r: bool)
    ensures oldItem == newItem ==> r
    ensures r ==> oldItem.key == newItem.key
  {
    oldItem.key == newItem.key
  }

  /** `ItemDiffCallback.areContentsTheSame`: the old item's own content check. */
  function ContentsTheSame(oldItem: Node, newItem: Node, propertyDiff: (Node, Node) -> bool): (r: bool)
    ensures oldItem.id == newItem.id ==> r
    ensures r ==> oldItem.id == newItem.id || oldItem.cls == newItem.cls
  {
    AreContentsTheSame(oldItem, newItem, propertyDiff)
  }

  /** Identity by key is an equivalence that ignores every other field. */
  lemma ItemsTheSameIsKeyEquivalence(a: Node, b: Node, c: Node)
    ensures ItemsTheSame(a, a)
    ensures ItemsTheSame(a, b) == ItemsTheSame(b, a)
    ensures ItemsTheSame(a, b) && ItemsTheSame(b, c) ==> ItemsTheSame(a, c)
    ensures ItemsTheSame(a, b) <==> a.key == b.key
  {
  }

  /** Matched items always compare equal in content to themselves. */
  lemma ContentsTheSameReflexive(a: Node, propertyDiff: (Node, Node) -> bool)
    ensures ContentsTheSame(a, a, propertyDiff)
  {
    ContentsReflexive(a, propertyDiff);
  }

  // ---------------------------------------------------------------------
  // The adapter's state

  class SectionAdapter {
    var dataset: seq<Node>
    var sectionsMapping: map<int, Node>

    var nodesCanBeMovedBetweenSections: bool
    var movableSections: bool
    var swipeableSections: bool
    var movableNodes: bool
    var swipeableNodes: bool
    var swipeBack: bool

    /** A fresh adapter: empty list, empty header map, every policy flag off. */
    constructor ()
      ensures dataset == [] && sectionsMapping == map[]
      ensures !nodesCanBeMovedBetweenSections && !movableSections && !swipeableSections
      ensures !movableNodes && !swipeableNodes && !swipeBack
    {
      dataset := [];
      sectionsMapping := map[];
      nodesCanBeMovedBetweenSections := false;
      movableSections := false;
      swipeableSections := false;
      movableNodes := false;
      swipeableNodes := false;
      swipeBack := false;
    }

    /** `findLimitsForNode`: the limits of the first index holding `node`,
        from the header map as last submitted. */
    function FindLimitsForNode(node: Node): (lim: (int, int))
      reads this
      ensures node in dataset ==> lim.0 <= IndexOf(dataset, node) <= lim.1
      ensures forall k :: k in sectionsMapping && lim.0 <= k <= lim.1 ==> k == IndexOf(dataset, node)
    {
      LimitsAt(sectionsMapping.Keys, |dataset|, IndexOf(dataset, node))
    }

    /** Whether `onItemMove(fromPosition, toPosition)` performs the move. */
    predicate AcceptsMove(fromPosition: int, toPosition: int): (r: bool)
      reads this
      requires 0 <= fromPosition < |dataset|
      ensures nodesCanBeMovedBetweenSections ==> r
      ensures IndexOf(dataset, dataset[fromPosition]) == toPosition ==> r
      ensures r && !nodesCanBeMovedBetweenSections ==>
        var i := IndexOf(dataset, dataset[fromPosition]);
        forall k :: k in sectionsMapping && k != i ==> (k < i && k < toPosition) || (k > i && k > toPosition)
    {
      nodesCanBeMovedBetweenSections
      || (var lim := FindLimitsForNode(dataset[fromPosition]); lim.0 <= toPosition <= lim.1)
    }

    /** `onItemMove`: with cross-section moves disabled, the step is performed
        only if `toPosition` lies within the limits of the dragged item;
        otherwise it is always performed. The header map is not touched. */
    method OnItemMove(fromPosition: int, toPosition: int) returns (accepted: bool)
      requires 0 <= fromPosition < |dataset|
      requires AcceptsMove(fromPosition, toPosition) ==> 0 <= toPosition < |dataset|
      modifies this`dataset
      ensures accepted == old(AcceptsMove(fromPosition, toPosition))
      ensures sectionsMapping == old(sectionsMapping)
      ensures accepted ==> dataset == Extensions.Moved(old(dataset), fromPosition, toPosition)
      ensures !accepted ==> dataset == old(dataset)
    {
      if !nodesCanBeMovedBetweenSections {
        var limits := FindLimitsForNode(dataset[fromPosition]);
        if limits.0 <= toPosition <= limits.1 {
          dataset := Extensions.Move(dataset, fromPosition, toPosition);
          return true;
        }
      } else {
        dataset := Extensions.Move(dataset, fromPosition, toPosition);
        return true;
      }
      return false;
    }

    /** With cross-section moves off and the state just submitted by
        `submitSections`, a child of section `j` may be dragged exactly onto
        the slots of that section's children (not onto any header). */
    lemma MoveStaysInSection(sections: seq<SectionNode>, j: int, p: int, t: int)
      requires dataset == Flatten(sections) && sectionsMapping == HeaderMap(sections)
      requires forall a, b :: 0 <= a < b < |dataset| ==> dataset[a] != dataset[b]
      requires !nodesCanBeMovedBetweenSections
      requires 0 <= j < |sections| && Offset(sections, j) < p < Offset(sections, j + 1)
      ensures 0 <= p < |dataset|
      ensures AcceptsMove(p, t) <==> Offset(sections, j) < t < Offset(sections, j + 1)
    {
      FlattenLayout(sections, j);
      IndexOfDistinct(dataset, p);
      SubmittedLimits(sections, j, p);
    }

    /** `getItemViewType`: `SECTION` for a section, `NODE` for anything else. */
    function GetItemViewType(position: int): (t: int)
      reads this
      requires 0 <= position < |dataset|
      ensures t == SECTION <==> dataset[position].Section?
      ensures t == NODE <==> !dataset[position].Section?
    {
      match dataset[position]
      case Section(_, _, _, _, _, _) => SECTION
      case _ => NODE
    }

    /** `canItemBeMoved`: the section policy for a section, the node policy otherwise. */
    function CanItemBeMoved(position: int): (r: bool)
      reads this
      requires 0 <= position < |dataset|
      ensures r == if GetItemViewType(position) == SECTION then movableSections else movableNodes
    {
      if dataset[position].Section? then movableSections else movableNodes
    }

    /** `canItemBeSwiped`: the section policy for a section, the node policy otherwise. */
    function CanItemBeSwiped(position: int): (r: bool)
      reads this
      requires 0 <= position < |dataset|
      ensures r == if GetItemViewType(position) == SECTION then swipeableSections else swipeableNodes
    {
      if dataset[position].Section? then swipeableSections else swipeableNodes
    }

    /** `swipeBack(position)`: the adapter-wide flag, whatever the position. */
    function SwipeBack(position: int): bool
      reads this
    {
      swipeBack
    }

    /** The three dispatches look at nothing but whether the item is a section. */
    lemma DispatchOnlyOnSectionness(p: int, q: int)
      requires 0 <= p < |dataset| && 0 <= q < |dataset|
      requires dataset[p].Section? == dataset[q].Section?
      ensures GetItemViewType(p) == GetItemViewType(q)
      ensures CanItemBeMoved(p) == CanItemBeMoved(q)
      ensures CanItemBeSwiped(p) == CanItemBeSwiped(q)
      ensures SwipeBack(p) == SwipeBack(q)
    {
    }

    /** `submitNodes`: the header map is rebuilt to hold exactly the indices
        of the sections among `items`, and the list becomes `items`. */
    method SubmitNodes(items: seq<Node>)
      modifies this`dataset, this`sectionsMapping
      ensures dataset == items
      ensures forall k :: k in sectionsMapping <==> 0 <= k < |items| && items[k].Section?
      ensures forall k :: k in sectionsMapping ==> sectionsMapping[k] == items[k]
    {
      sectionsMapping := map[];
      var index := 0;
      while index < |items|
        invariant 0 <= index <= |items|
        invariant forall k :: k in sectionsMapping <==> 0 <= k < index && items[k].Section?
        invariant forall k :: k in sectionsMapping ==> sectionsMapping[k] == items[k]
      {
        if items[index].Section? {
          sectionsMapping := sectionsMapping[index := items[index]];
        }
        index := index + 1;
      }
      dataset := items;
    }

    /** `submitSections`: the list becomes each section followed by all its
        children, and the header map is rebuilt to hold the header indices. */
    method SubmitSections(sections: seq<SectionNode>)
      modifies this`dataset, this`sectionsMapping
      ensures dataset == Flatten(sections)
      ensures sectionsMapping == HeaderMap(sections)
      ensures forall k :: k in sectionsMapping ==> 0 <= k < |dataset| && sectionsMapping[k] == dataset[k]
    {
      var newItems: seq<Node> := [];
      sectionsMapping := map[];
      var i := 0;
      while i < |sections|
        invariant 0 <= i <= |sections|
        invariant newItems == Flatten(sections[..i])
        invariant sectionsMapping == HeaderMap(sections[..i])
      {
        var it := sections[i];
        assert sections[..i + 1][..i] == sections[..i];
        newItems := newItems + [it];
        var sectionIndex := |newItems| - 1;
        newItems := newItems + it.nodes;
        sectionsMapping := sectionsMapping[sectionIndex := it];
        i := i + 1;
      }
      assert sections[..i] == sections;
      dataset := newItems;
      HeaderMapMatchesDataset(sections);
    }
  }

  /** `BaseSectionViewHolder`: its collapse state and the list surgery it
      drives on its adapter. `collapsible` stands for the overridable
      `isCollapsible()` (false unless overridden). */
  class SectionViewHolder {
    const adapter: SectionAdapter
    const collapsible: bool
    var collapsed: bool

    constructor (adapter: SectionAdapter, collapsible: bool)
      ensures this.adapter == adapter && this.collapsible == collapsible && !collapsed
    {
      this.adapter := adapter;
      this.collapsible := collapsible;
      collapsed := false;
    }

    /** `collapseSection`: `removeAll(section.nodes)` on a copy of the list,
        then `collapsed = true`. The header map is not touched. */
    method CollapseSection(section: SectionNode)
      modifies this`collapsed, adapter`dataset
      ensures adapter.dataset == Collapsed(old(adapter.dataset), section)
      ensures collapsed
    {
      var currentList := adapter.dataset;
      var kept: seq<Node> := [];
      var i := 0;
      while i < |currentList|
        invariant 0 <= i <= |currentList|
        invariant kept == RemoveAll(currentList[..i], section.nodes)
      {
        RemoveAllConcat(currentList[..i], [currentList[i]], section.nodes);
        assert currentList[..i + 1] == currentList[..i] + [currentList[i]];
        if currentList[i] !in section.nodes {
          kept := kept + [currentList[i]];
        }
        i := i + 1;
      }
      assert currentList[..i] == currentList;
      adapter.dataset := kept;
      collapsed := true;
    }

    /** `expandSection`: the children inserted one by one from just after the
        section, then `collapsed = false`. */
    method ExpandSection(section: SectionNode)
      modifies this`collapsed, adapter`dataset
      ensures adapter.dataset == Expanded(old(adapter.dataset), section)
      ensures !collapsed
    {
      var currentList := adapter.dataset;
      ghost var original := currentList;
      ghost var p := IndexOf(original, section) + 1;
      var index := IndexOf(currentList, section) + 1;
      var j := 0;
      while j < |section.nodes|
        invariant 0 <= j <= |section.nodes|
        invariant index == p + j
        invariant currentList == original[..p] + section.nodes[..j] + original[p..]
      {
        assert section.nodes[..j + 1] == section.nodes[..j] + [section.nodes[j]];
        currentList := currentList[..index] + [section.nodes[j]] + currentList[index..];
        index := index + 1;
        j := j + 1;
      }
      assert section.nodes[..j] == section.nodes;
      adapter.dataset := currentList;
      collapsed := false;
    }

    /** `toggleCollapse`: nothing unless collapsible; otherwise collapse when
        `collapsed` is set and expand when it is not. Either way `collapsed`
        ends as it started. */
    method ToggleCollapse(section: SectionNode)
      modifies this`collapsed, adapter`dataset
      ensures collapsed == old(collapsed)
      ensures !collapsible ==> adapter.dataset == old(adapter.dataset)
      ensures collapsible && old(collapsed) ==> adapter.dataset == Collapsed(old(adapter.dataset), section)
      ensures collapsible && !old(collapsed) ==> adapter.dataset == Expanded(old(adapter.dataset), section)
    {
      if !collapsible {
        return;
      }
      if collapsed {
        CollapseSection(section);
      } else {
        ExpandSection(section);
      }
    }
  }
}
