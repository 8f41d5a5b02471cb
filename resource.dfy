/**
 * The resource tree of `kernel/resource.c`: a root resource owns a list of
 * child ranges, kept sorted, and `request_resource` splices a new range into
 * that list unless it clashes with a child or leaves the root's range.
 *
 * The C sibling chain `root->child`, `->sibling`, ... is the sequence
 * `children` of the root; inserting a node before the `k`-th sibling is
 * inserting it at index `k` of that sequence.
 */
module Resource {
  const EBUSY: int := 16
  const IORESOURCE_IO: nat := 0x100
  const IORESOURCE_MEM: nat := 0x200
  const IO_SPACE_LIMIT: nat := 0xffff

  /** The inclusive address range `[start, end]` of a resource. */
  datatype Span = Span(start: int, end: int)

  /** Where the walk over the children stops: before child `at`, or on a clash with it. */
  datatype Placement = Insert(at: nat) | Clash(at: nat)

  /** Inclusive ranges overlap when neither lies wholly before the other. */
  predicate Overlap(a: Span, b: Span) {
    a.start <= b.end && b.start <= a.end
  }

  /**
   * The walk of `__request_resource` over the children from index `i` on:
   * it stops before the first child starting above `end`, or at the end of
   * the list, and reports as a clash the first child that is not wholly
   * below `start`.
   */
  function PlaceFrom(spans: seq<Span>, i: nat, start: int, end: int): (r: Placement)
    requires i <= |spans|
    ensures i <= r.at <= |spans| && (r.Clash? ==> r.at < |spans|)
    ensures forall j :: i <= j < r.at ==> spans[j].start <= end && spans[j].end < start
    ensures r.Insert? ==> r.at == |spans| || spans[r.at].start > end
    ensures r.Clash? ==> spans[r.at].start <= end && start <= spans[r.at].end
    decreases |spans| - i
  {
    if i == |spans| then Insert(i)
    else if spans[i].start > end then Insert(i)
    else if spans[i].end < start then PlaceFrom(spans, i + 1, start, end)
    else Clash(i)
  }

  /** The children are each a proper range and lie in increasing order, apart. */
  ghost predicate Ordered(spans: seq<Span>) {
    (forall i :: 0 <= i < |spans| ==> spans[i].start <= spans[i].end) &&
    (forall i, j :: 0 <= i < j < |spans| ==> spans[i].end < spans[j].start)
  }

  /** The range `[start, end]` is one `__request_resource` accepts under `root` at all. */
  predicate InRoot(root: Span, start: int, end: int) {
    start <= end && root.start <= start && end <= root.end
  }

  /**
   * Over ordered children the walk inserts exactly when the new range
   * overlaps no child, and it names a child it overlaps otherwise.
   */
  lemma InsertIffDisjoint(spans: seq<Span>, start: int, end: int)
    requires Ordered(spans) && start <= end
    ensures var r := PlaceFrom(spans, 0, start, end);
      r.Insert? <==> forall j :: 0 <= j < |spans| ==> !Overlap(spans[j], Span(start, end))
    ensures var r := PlaceFrom(spans, 0, start, end);
      r.Clash? ==> Overlap(spans[r.at], Span(start, end))
  {
    var r := PlaceFrom(spans, 0, start, end);
    if r.Insert? {
      forall j | 0 <= j < |spans|
        ensures !Overlap(spans[j], Span(start, end))
      {
        if r.at < |spans| && r.at < j {
          assert spans[r.at].end < spans[j].start;
        }
      }
    }
  }

  /** Inserting where the walk stops keeps ordered children ordered. */
  lemma InsertKeepsOrdered(spans: seq<Span>, start: int, end: int)
    requires Ordered(spans) && start <= end
    requires PlaceFrom(spans, 0, start, end).Insert?
    ensures var k := PlaceFrom(spans, 0, start, end).at;
      Ordered(spans[..k] + [Span(start, end)] + spans[k..])
  {
    var k := PlaceFrom(spans, 0, start, end).at;
    InsertBetween(spans, k, Span(start, end));
  }

  /** A proper range that fits after child `k - 1` and before child `k`. */
  lemma InsertBetween(spans: seq<Span>, k: nat, x: Span)
    requires Ordered(spans) && k <= |spans| && x.start <= x.end
    requires k > 0 ==> spans[k - 1].end < x.start
    requires k < |spans| ==> x.end < spans[k].start
    ensures Ordered(spans[..k] + [x] + spans[k..])
  {
    var t := spans[..k] + [x] + spans[k..];
    assert forall i :: 0 <= i < k ==> t[i] == spans[i];
    assert forall i :: k < i < |t| ==> t[i] == spans[i - 1];
    forall i, j | 0 <= i < j < |t|
      ensures t[i].end < t[j].start
    {
      if i < k && j == k {
        assert spans[i].end <= spans[k - 1].end;
      } else if i == k && k + 1 < j {
        assert spans[k].end < spans[j - 1].start;
      } else if i < k && k < j {
        assert spans[i].end < spans[j - 1].start;
      }
    }
  }

  /** A node of the resource tree. */
  class Resource {
    var name: seq<char>
    var start: int
    var end: int
    var flags: nat
    var parent: Resource?
    /** The chain `child`, `child->sibling`, ... of this node. */
    var children: seq<Resource>

    constructor (name: seq<char>, start: int, end: int, flags: nat)
      ensures this.name == name && this.start == start && this.end == end && this.flags == flags
      ensures parent == null && children == []
    {
      this.name := name;
      this.start := start;
      this.end := end;
      this.flags := flags;
      parent := null;
      children := [];
    }
  }

  /** The ranges of a chain of resources, in chain order. */
  ghost function Spans(rs: seq<Resource>): (s: seq<Span>)
    reads set r | r in rs
    ensures |s| == |rs| && forall i :: 0 <= i < |rs| ==> s[i] == Span(rs[i].start, rs[i].end)
  {
    if rs == [] then [] else [Span(rs[0].start, rs[0].end)] + Spans(rs[1..])
  }

  /**
   * `__request_resource`: returns `root` for a range that is empty or leaves
   * the root's range, the first clashing child, or `null` after linking
   * `res` (`new`) before the first child that starts above `res.end`.
   */
  method RequestInner(root: Resource, res: Resource) returns (conflict: Resource?)
    modifies root`children, res`parent
    ensures var s := old(Spans(root.children));
      if !old(InRoot(Span(root.start, root.end), res.start, res.end)) then
        conflict == root && root.children == old(root.children) && res.parent == old(res.parent)
      else match PlaceFrom(s, 0, old(res.start), old(res.end))
        case Insert(k) =>
          conflict == null && res.parent == root &&
          root.children == old(root.children[..k]) + [res] + old(root.children[k..])
        case Clash(k) =>
          conflict == old(root.children[k]) &&
          root.children == old(root.children) && res.parent == old(res.parent)
  {
    var start := res.start;
    var end := res.end;
    if end < start {
      return root;
    }
    if start < root.start {
      return root;
    }
    if end > root.end {
      return root;
    }
    ghost var s := Spans(root.children);
    var i := 0;
    while i < |root.children|
      invariant i <= |root.children| && s == Spans(root.children)
      invariant PlaceFrom(s, i, start, end) == PlaceFrom(s, 0, start, end)
    {
      var tmp := root.children[i];
      if tmp.start > end {
        root.children := root.children[..i] + [res] + root.children[i..];
        res.parent := root;
        return null;
      }
      i := i + 1;
      if tmp.end < start {
        continue;
      }
      return tmp;
    }
    root.children := root.children + [res];
    res.parent := root;
    assert root.children[..i] == old(root.children);
    return null;
  }

  /** `request_resource`: `-EBUSY` when the range is refused, 0 once it is linked in. */
  method RequestResource(root: Resource, res: Resource) returns (err: int)
    modifies root`children, res`parent
    ensures var ok := old(InRoot(Span(root.start, root.end), res.start, res.end)) &&
      PlaceFrom(old(Spans(root.children)), 0, old(res.start), old(res.end)).Insert?;
      var k := PlaceFrom(old(Spans(root.children)), 0, old(res.start), old(res.end)).at;
      err == (if ok then 0 else -EBUSY) &&
      (ok ==> res.parent == root && root.children == old(root.children[..k]) + [res] + old(root.children[k..])) &&
      (!ok ==> root.children == old(root.children) && res.parent == old(res.parent))
  {
    var conflict := RequestInner(root, res);
    err := if conflict != null then -EBUSY else 0;
  }
}
