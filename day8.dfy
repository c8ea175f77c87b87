/** License tree: a tree written as a flat list of integers, each node as
    its child count, its metadata count, its children and then its metadata
    entries. The checks are the sum of all metadata and the node value. */
module LicenseTree {
  import opened Wrappers

  datatype Node = Node(children: seq<Node>, metadata: seq<int>)

  /** `(1..k)` is empty when `k < 1`, so a negative count reads nothing. */
  function Count(k: int): (n: nat)
    ensures k >= 0 ==> n == k
    ensures k < 0 ==> n == 0
  {
    if k < 0 then 0 else k
  }

  // ---------------------------------------------------------------------
  // The encoding and its parser.

  /** The integers a node takes up: two header entries, its metadata and
      everything its children take up. */
  function Size(n: Node): (s: nat)
    ensures s >= 2 + |n.metadata|
    decreases n, 1
  {
    2 + |n.metadata| + SizeAll(n.children)
  }

  function SizeAll(cs: seq<Node>): nat
    decreases cs, 0
  {
    if cs == [] then 0 else Size(cs[0]) + SizeAll(cs[1..])
  }

  /** The flat encoding of a node. */
  function Encode(n: Node): seq<int>
    decreases n, 1
  {
    [|n.children|, |n.metadata|] + EncodeAll(n.children) + n.metadata
  }

  function EncodeAll(cs: seq<Node>): seq<int>
    decreases cs, 0
  {
    if cs == [] then [] else Encode(cs[0]) + EncodeAll(cs[1..])
  }

  /** The encoding of a node is exactly `Size` integers long. */
  lemma {:induction false} EncodeLength(n: Node)
    ensures |Encode(n)| == Size(n)
    decreases n, 1
  {
    EncodeAllLength(n.children);
  }

  lemma {:induction false} EncodeAllLength(cs: seq<Node>)
    ensures |EncodeAll(cs)| == SizeAll(cs)
    decreases cs, 0
  {
    if cs != [] {
      EncodeLength(cs[0]);
      EncodeAllLength(cs[1..]);
    }
  }

  /** Reading `count` metadata entries from `pos`; running out of integers
      raises `StopIteration`. */
  function ParseMetadata(ints: seq<int>, pos: nat, count: nat): (r: Result<(seq<int>, nat)>)
    ensures r.Ok? <==> pos + count <= |ints|
    ensures r.Ok? ==> (|r.value.0| == count && r.value.1 == pos + count &&
      forall i :: 0 <= i < count ==> r.value.0[i] == ints[pos + i])
  {
    if pos + count <= |ints| then Ok((ints[pos..pos + count], pos + count))
    else Fail("StopIteration")
  }

  /** `build_node` on the stream positioned at `pos`: the node read and the
      position after it. The children are read before the metadata. */
  function ParseNode(ints: seq<int>, pos: nat): (r: Result<(Node, nat)>)
    requires pos <= |ints|
    ensures r.Ok? ==> r.value.1 == pos + Size(r.value.0) <= |ints|
    decreases |ints| - pos, 0, 0
  {
    if pos + 2 > |ints| then Fail("StopIteration")
    else
      match ParseChildren(ints, pos + 2, Count(ints[pos]))
      case Fail(e) => Fail(e)
      case Ok((cs, p)) =>
        match ParseMetadata(ints, p, Count(ints[pos + 1]))
        case Fail(e) => Fail(e)
        case Ok((md, q)) => Ok((Node(cs, md), q))
  }

  /** Reading `count` sibling nodes, one after the other. */
  function ParseChildren(ints: seq<int>, pos: nat, count: nat): (r: Result<(seq<Node>, nat)>)
    requires pos <= |ints|
    ensures r.Ok? ==> |r.value.0| == count && r.value.1 == pos + SizeAll(r.value.0) <= |ints|
    decreases |ints| - pos, 1, count
  {
    if count == 0 then Ok(([], pos))
    else
      match ParseNode(ints, pos)
      case Fail(e) => Fail(e)
      case Ok((n, p)) =>
        match ParseChildren(ints, p, count - 1)
        case Fail(e) => Fail(e)
        case Ok((cs, q)) => Ok(([n] + cs, q))
  }

  /** The parts of a node's encoding. */
  lemma EncodeParts(n: Node)
    ensures |Encode(n)| == Size(n)
    ensures Encode(n)[0] == |n.children| && Encode(n)[1] == |n.metadata|
    ensures Encode(n)[2..2 + SizeAll(n.children)] == EncodeAll(n.children)
    ensures Encode(n)[2 + SizeAll(n.children)..] == n.metadata
  {
    EncodeLength(n);
    EncodeAllLength(n.children);
  }

  /** The parser reads back what the encoder writes, whatever follows it
      in the stream. */
  lemma {:induction false} ParseEncoded(n: Node, ints: seq<int>, pos: nat)
    requires pos + Size(n) <= |ints| && ints[pos..pos + Size(n)] == Encode(n)
    ensures ParseNode(ints, pos) == Ok((n, pos + Size(n)))
    decreases n, 1
  {
    var p := pos + 2 + SizeAll(n.children);
    NodeParts(n, ints, pos);
    ParseEncodedAll(n.children, ints, pos + 2);
    assert Count(ints[pos]) == |n.children| && Count(ints[pos + 1]) == |n.metadata|;
    assert ParseMetadata(ints, p, |n.metadata|) == Ok((n.metadata, pos + Size(n)));
    NodeCons(ints, pos, n.children, p, n.metadata, pos + Size(n));
    assert Node(n.children, n.metadata) == n;
  }

  /** The counts, then the children, then the metadata. */
  lemma NodeCons(ints: seq<int>, pos: nat, cs: seq<Node>, p: nat, md: seq<int>, q: nat)
    requires pos + 2 <= p <= |ints|
    requires ParseChildren(ints, pos + 2, Count(ints[pos])) == Ok((cs, p))
    requires ParseMetadata(ints, p, Count(ints[pos + 1])) == Ok((md, q))
    ensures ParseNode(ints, pos) == Ok((Node(cs, md), q))
  {
  }

  /** Where a node's encoding sits in the stream: its two counts, then
      its children's encodings, then its metadata. */
  lemma NodeParts(n: Node, ints: seq<int>, pos: nat)
    requires pos + Size(n) <= |ints| && ints[pos..pos + Size(n)] == Encode(n)
    ensures ints[pos] == |n.children| && ints[pos + 1] == |n.metadata|
    ensures ints[pos + 2..pos + 2 + SizeAll(n.children)] == EncodeAll(n.children)
    ensures ints[pos + 2 + SizeAll(n.children)..pos + Size(n)] == n.metadata
  {
    EncodeParts(n);
    var e, k := Encode(n), 2 + SizeAll(n.children);
    Window(ints, pos, e, 0, 1);
    Window(ints, pos, e, 1, 2);
    Window(ints, pos, e, 2, k);
    Window(ints, pos, e, k, |e|);
    assert e[0..1] == [e[0]] && e[1..2] == [e[1]];
  }

  /** A piece of an encoding that sits at `pos` in the stream. */
  lemma Window(ints: seq<int>, pos: nat, whole: seq<int>, a: nat, b: nat)
    requires pos + |whole| <= |ints| && ints[pos..pos + |whole|] == whole && a <= b <= |whole|
    ensures ints[pos + a..pos + b] == whole[a..b]
  {
    SliceOfSlice(ints, pos, pos + |whole|, a, b);
  }

  lemma {:induction false} ParseEncodedAll(cs: seq<Node>, ints: seq<int>, pos: nat)
    requires pos + SizeAll(cs) <= |ints| && ints[pos..pos + SizeAll(cs)] == EncodeAll(cs)
    ensures ParseChildren(ints, pos, |cs|) == Ok((cs, pos + SizeAll(cs)))
    decreases cs, 0, 1
  {
    if cs != [] {
      var p := ParseEncodedFirst(cs, ints, pos);
      ParseEncodedRest(cs, ints, pos);
      ChildrenCons(ints, pos, |cs|, cs[0], p, cs[1..], pos + SizeAll(cs));
      assert [cs[0]] + cs[1..] == cs;
    }
  }

  /** The first of several encodings reads back. */
  lemma {:induction false} ParseEncodedFirst(cs: seq<Node>, ints: seq<int>, pos: nat) returns (p: nat)
    requires cs != [] && pos + SizeAll(cs) <= |ints| && ints[pos..pos + SizeAll(cs)] == EncodeAll(cs)
    ensures p == pos + Size(cs[0]) <= |ints|
    ensures ParseNode(ints, pos) == Ok((cs[0], p))
    decreases cs, 0, 0
  {
    p := pos + Size(cs[0]);
    FirstParts(cs, ints, pos);
    ParseEncoded(cs[0], ints, pos);
  }

  /** After the first of several encodings, the rest read back. */
  lemma {:induction false} ParseEncodedRest(cs: seq<Node>, ints: seq<int>, pos: nat)
    requires cs != [] && pos + SizeAll(cs) <= |ints| && ints[pos..pos + SizeAll(cs)] == EncodeAll(cs)
    ensures pos + Size(cs[0]) <= |ints|
    ensures ParseChildren(ints, pos + Size(cs[0]), |cs| - 1) == Ok((cs[1..], pos + SizeAll(cs)))
    decreases cs, 0, 0
  {
    var p := pos + Size(cs[0]);
    var rest := cs[1..];
    FirstParts(cs, ints, pos);
    assert |rest| == |cs| - 1 && p + SizeAll(rest) == pos + SizeAll(cs);
    ParseEncodedAll(rest, ints, p);
  }

  /** One node read, then the remaining siblings. */
  lemma ChildrenCons(ints: seq<int>, pos: nat, count: nat, n: Node, p: nat, rest: seq<Node>, q: nat)
    requires pos <= p <= |ints| && count >= 1
    requires ParseNode(ints, pos) == Ok((n, p)) && ParseChildren(ints, p, count - 1) == Ok((rest, q))
    ensures ParseChildren(ints, pos, count) == Ok(([n] + rest, q))
  {
  }

  /** Where the first of several encodings ends and the rest begin. */
  lemma FirstParts(cs: seq<Node>, ints: seq<int>, pos: nat)
    requires cs != [] && pos + SizeAll(cs) <= |ints| && ints[pos..pos + SizeAll(cs)] == EncodeAll(cs)
    ensures pos + Size(cs[0]) + SizeAll(cs[1..]) == pos + SizeAll(cs)
    ensures ints[pos..pos + Size(cs[0])] == Encode(cs[0])
    ensures ints[pos + Size(cs[0])..pos + SizeAll(cs)] == EncodeAll(cs[1..])
  {
    EncodeLength(cs[0]);
    EncodeAllLength(cs[1..]);
    var e := EncodeAll(cs);
    assert e == Encode(cs[0]) + EncodeAll(cs[1..]);
    Window(ints, pos, e, 0, Size(cs[0]));
    Window(ints, pos, e, Size(cs[0]), |e|);
  }

  lemma SliceOfSlice(s: seq<int>, a: nat, b: nat, c: nat, d: nat)
    requires a <= b <= |s| && c <= d <= b - a
    ensures s[a..b][c..d] == s[a + c..a + d]
  {
    assert forall i :: 0 <= i < d - c ==> s[a..b][c..d][i] == s[a + c..a + d][i];
  }

  /** A stream with fewer than two integers left raises at once. */
  lemma ShortStreamFails(ints: seq<int>, pos: nat)
    requires pos <= |ints| < pos + 2
    ensures ParseNode(ints, pos).Fail?
  {
  }

  // ---------------------------------------------------------------------
  // The stream `ints.to_enum` and `build_node` over it.

  /** An integer enumerator: `Next` hands out the integers in order. */
  class IntStream {
    const ints: seq<int>
    var pos: nat

    ghost predicate Valid()
      reads this
    {
      pos <= |ints|
    }

    constructor (ints: seq<int>)
      ensures Valid() && this.ints == ints && pos == 0
    {
      this.ints := ints;
      pos := 0;
    }

    /** `ints.next`: the next integer, or `StopIteration` at the end. */
    method Next() returns (r: Result<int>)
      requires Valid()
      modifies this
      ensures Valid()
      ensures old(pos) < |ints| ==> r == Ok(ints[old(pos)]) && pos == old(pos) + 1
      ensures old(pos) == |ints| ==> r.Fail? && pos == old(pos)
    {
      if pos < |ints| {
        r := Ok(ints[pos]);
        pos := pos + 1;
      } else {
        r := Fail("StopIteration");
      }
    }
  }

  /** `build_node`: reads the two counts, the children (recursively) and
      the metadata from the shared stream. */
  method BuildNode(s: IntStream) returns (r: Result<Node>)
    requires s.Valid()
    modifies s
    ensures s.Valid()
    ensures ParseNode(s.ints, old(s.pos)).Ok? <==> r.Ok?
    ensures r.Ok? ==> ParseNode(s.ints, old(s.pos)) == Ok((r.value, s.pos))
    decreases |s.ints| - s.pos, 0
  {
    ghost var p0 := s.pos;
    var childCount := s.Next();
    if childCount.Fail? {
      ShortStreamFails(s.ints, p0);
      return Fail(childCount.reason);
    }
    var metadataCount := s.Next();
    if metadataCount.Fail? {
      ShortStreamFails(s.ints, p0);
      return Fail(metadataCount.reason);
    }
    ghost var header := s.pos;
    assert header == p0 + 2 && childCount.value == s.ints[p0] && metadataCount.value == s.ints[p0 + 1];
    var children := BuildChildren(s, Count(childCount.value));
    if children.Fail? {
      assert ParseChildren(s.ints, header, Count(s.ints[p0])).Fail?;
      return Fail(children.reason);
    }
    ghost var p := s.pos;
    assert ParseChildren(s.ints, header, Count(s.ints[p0])) == Ok((children.value, p));
    var metadata := BuildMetadata(s, Count(metadataCount.value));
    if metadata.Fail? {
      assert ParseMetadata(s.ints, p, Count(s.ints[p0 + 1])).Fail?;
      return Fail(metadata.reason);
    }
    assert ParseMetadata(s.ints, p, Count(s.ints[p0 + 1])) == Ok((metadata.value, s.pos));
    r := Ok(Node(children.value, metadata.value));
  }

  /** `(1..k).map { build_node(ints) }`: `k` nodes read one after the other. */
  method BuildChildren(s: IntStream, k: nat) returns (r: Result<seq<Node>>)
    requires s.Valid()
    modifies s
    ensures s.Valid()
    ensures ParseChildren(s.ints, old(s.pos), k).Ok? <==> r.Ok?
    ensures r.Ok? ==> ParseChildren(s.ints, old(s.pos), k) == Ok((r.value, s.pos))
    decreases |s.ints| - s.pos, 1
  {
    ghost var p0 := s.pos;
    var children: seq<Node> := [];
    var i := 0;
    PrependNothing(ParseChildren(s.ints, s.pos, k));
    while i < k
      invariant s.Valid() && p0 <= s.pos && i <= k
      invariant ParseChildren(s.ints, p0, k) == Prepend(children, ParseChildren(s.ints, s.pos, k - i))
      decreases k - i
    {
      ghost var before := s.pos;
      var child := BuildNode(s);
      if child.Fail? {
        assert ParseChildren(s.ints, before, k - i).Fail?;
        return Fail(child.reason);
      }
      PrependStep(children, child.value, ParseChildren(s.ints, s.pos, k - i - 1));
      children := children + [child.value];
      i := i + 1;
    }
    assert ParseChildren(s.ints, s.pos, 0) == Ok(([], s.pos));
    assert children + [] == children;
    r := Ok(children);
  }

  /** `(1..m).map { ints.next }`: `m` metadata entries. */
  method BuildMetadata(s: IntStream, m: nat) returns (r: Result<seq<int>>)
    requires s.Valid()
    modifies s
    ensures s.Valid()
    ensures ParseMetadata(s.ints, old(s.pos), m).Ok? <==> r.Ok?
    ensures r.Ok? ==> ParseMetadata(s.ints, old(s.pos), m) == Ok((r.value, s.pos))
  {
    var metadata: seq<int> := [];
    ghost var p := s.pos;
    var j := 0;
    while j < m
      invariant s.Valid() && s.pos == p + j && j <= m
      invariant metadata == s.ints[p..s.pos]
      decreases m - j
    {
      var entry := s.Next();
      if entry.Fail? {
        return Fail(entry.reason);
      }
      assert s.ints[p..s.pos] == s.ints[p..s.pos - 1] + [entry.value];
      metadata := metadata + [entry.value];
      j := j + 1;
    }
    r := Ok(metadata);
  }

  /** `cs` read already, in front of the outcome of the rest. */
  function Prepend(cs: seq<Node>, r: Result<(seq<Node>, nat)>): Result<(seq<Node>, nat)>
  {
    match r
    case Fail(e) => Fail(e)
    case Ok((rest, q)) => Ok((cs + rest, q))
  }

  lemma PrependNothing(r: Result<(seq<Node>, nat)>)
    ensures Prepend([], r) == r
  {
    if r.Ok? {
      assert [] + r.value.0 == r.value.0;
    }
  }

  /** Reading one more child moves it from the outcome to the prefix. */
  lemma PrependStep(cs: seq<Node>, c: Node, r: Result<(seq<Node>, nat)>)
    ensures Prepend(cs + [c], r) ==
      Prepend(cs, match r case Fail(e) => Fail(e) case Ok((rest, q)) => Ok(([c] + rest, q)))
  {
    if r.Ok? {
      assert cs + [c] + r.value.0 == cs + ([c] + r.value.0);
    }
  }

  // ---------------------------------------------------------------------
  // The two checks.

  /** `metadata_entry_sum`: the node's own entries plus its children's sums. */
  function MetadataSum(n: Node): int
    decreases n, 1
  {
    Sum(n.metadata) + MetadataSumAll(n.children)
  }

  function MetadataSumAll(cs: seq<Node>): int
    decreases cs, 0
  {
    if cs == [] then 0 else MetadataSum(cs[0]) + MetadataSumAll(cs[1..])
  }

  /** Every metadata entry of the tree, in encoding order. */
  function AllMetadata(n: Node): seq<int>
    decreases n, 1
  {
    AllMetadataOf(n.children) + n.metadata
  }

  function AllMetadataOf(cs: seq<Node>): seq<int>
    decreases cs, 0
  {
    if cs == [] then [] else AllMetadata(cs[0]) + AllMetadataOf(cs[1..])
  }

  /** The metadata sum is the sum of every entry anywhere in the tree. */
  lemma {:induction false} MetadataSumIsSumOfAll(n: Node)
    ensures MetadataSum(n) == Sum(AllMetadata(n))
    decreases n, 1
  {
    MetadataSumAllIsSumOfAll(n.children);
    SumAppend(AllMetadataOf(n.children), n.metadata);
  }

  lemma {:induction false} MetadataSumAllIsSumOfAll(cs: seq<Node>)
    ensures MetadataSumAll(cs) == Sum(AllMetadataOf(cs))
    decreases cs, 0
  {
    if cs != [] {
      MetadataSumIsSumOfAll(cs[0]);
      MetadataSumAllIsSumOfAll(cs[1..]);
      SumAppend(AllMetadata(cs[0]), AllMetadataOf(cs[1..]));
    }
  }

  /** `value`: a leaf is worth its metadata sum; any other node the sum of
      `child_value` over its metadata entries. */
  function Value(n: Node): Result<int>
    decreases n, 2
  {
    if n.children == [] then Ok(MetadataSum(n)) else EntriesValue(n, n.metadata)
  }

  /** The sum of `child_value(e)` over the entries `es`; any failing entry
      makes the whole sum fail. */
  function EntriesValue(n: Node, es: seq<int>): Result<int>
    decreases n, 1, |es|
  {
    if es == [] then Ok(0)
    else
      match EntriesValue(n, es[..|es| - 1])
      case Fail(e) => Fail(e)
      case Ok(v) =>
        match ChildValue(n, es[|es| - 1])
        case Fail(e) => Fail(e)
        case Ok(w) => Ok(v + w)
  }

  /** `child_value(index)`: entries above the child count are worth 0; the
      rest read `child_nodes[index - 1]` with Ruby's indexing, so entry 0
      is the last child and a negative entry counts from the end; beyond
      the front Ruby finds `nil` and `nil.value` raises `NoMethodError`. */
  function ChildValue(n: Node, index: int): Result<int>
    decreases n, 0, 0
  {
    if index > |n.children| then Ok(0)
    else if index >= 1 then Value(n.children[index - 1])
    else if index - 1 >= -|n.children| then Value(n.children[|n.children| + index - 1])
    else Fail("NoMethodError")
  }

  /** Entry 0 is worth the last child's value. */
  lemma EntryZeroIsLastChild(n: Node)
    requires n.children != []
    ensures ChildValue(n, 0) == Value(n.children[|n.children| - 1])
  {
  }

  /** A node is well formed when every entry of every non-leaf names an
      existing child with a 1-based index (entries above the count are
      allowed too), and every metadata entry is non-negative. */
  ghost predicate Indexed(n: Node)
    decreases n
  {
    (forall e :: e in n.metadata ==> e >= 0) &&
    (n.children != [] ==> forall e :: e in n.metadata ==> e >= 1) &&
    forall c :: c in n.children ==> Indexed(c)
  }

  /** On a well-formed tree `value` never raises and is non-negative. */
  lemma {:induction false} IndexedValueIsNatural(n: Node)
    requires Indexed(n)
    ensures Value(n).Ok? && Value(n).value >= 0
    decreases n, 2
  {
    if n.children == [] {
      MetadataSumIsSumOfAll(n);
      IndexedMetadataNatural(n);
    } else {
      IndexedEntriesNatural(n, n.metadata);
    }
  }

  lemma {:induction false} IndexedEntriesNatural(n: Node, es: seq<int>)
    requires Indexed(n) && n.children != [] && forall e :: e in es ==> e in n.metadata
    ensures EntriesValue(n, es).Ok? && EntriesValue(n, es).value >= 0
    decreases n, 1, |es|
  {
    if es != [] {
      IndexedEntriesNatural(n, es[..|es| - 1]);
      var e := es[|es| - 1];
      assert e in es;
      if e <= |n.children| {
        assert n.children[e - 1] in n.children;
        IndexedValueIsNatural(n.children[e - 1]);
      }
    }
  }

  /** Non-negative entries everywhere give a non-negative metadata sum. */
  lemma {:induction false} IndexedMetadataNatural(n: Node)
    requires Indexed(n)
    ensures Sum(AllMetadata(n)) >= 0
    decreases n, 1
  {
    IndexedMetadataNaturalAll(n.children);
    SumAppend(AllMetadataOf(n.children), n.metadata);
    assert forall i :: 0 <= i < |n.metadata| ==> n.metadata[i] in n.metadata;
    NaturalSum(n.metadata);
  }

  lemma {:induction false} IndexedMetadataNaturalAll(cs: seq<Node>)
    requires forall c :: c in cs ==> Indexed(c)
    ensures Sum(AllMetadataOf(cs)) >= 0
    decreases cs, 0
  {
    if cs != [] {
      IndexedMetadataNatural(cs[0]);
      IndexedMetadataNaturalAll(cs[1..]);
      SumAppend(AllMetadata(cs[0]), AllMetadataOf(cs[1..]));
    }
  }

  lemma {:induction false} NaturalSum(s: seq<int>)
    requires forall i :: 0 <= i < |s| ==> s[i] >= 0
    ensures Sum(s) >= 0
  {
    if s != [] {
      NaturalSum(s[..|s| - 1]);
    }
  }

  /** A negative entry that reaches past the first child makes `value`
      raise. */
  lemma NegativeEntryBeyondFrontRaises(n: Node, es: seq<int>)
    requires n.children != [] && es != [] && es[|es| - 1] < -|n.children| + 1
    ensures EntriesValue(n, es).Fail?
  {
  }
}
