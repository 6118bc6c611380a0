/** The admin report: every content-optimization block found in the posts'
    parsed block trees, with its attributes and its variants, and the status
    label the report prints for it. Fetching the post ids and parsing the
    post content are done by WordPress; the model starts from the trees. */
module Report {
  import opened Common

  const OptimizationBlockName := "planet4-gpch-plugin-optimize/content-optimization"
  const VariantBlockName := "planet4-gpch-plugin-optimize/variant"
  const ActiveLabel := "Active"
  const DeactivatedLabel := "Deactivated"

  /** A parsed block: `blockName`, `attrs` (possibly missing) and `innerBlocks`. */
  datatype Block = Block(blockName: string, attrs: Option<map<string, Value>>, innerBlocks: seq<Block>)

  datatype VariantEntry = VariantEntry(blockName: string, attributes: map<string, Value>)

  datatype Entry = Entry(postId: int, attributes: map<string, Value>, variants: seq<VariantEntry>)

  /** A post id and the blocks `parse_blocks` returned for its content. */
  datatype Post = Post(id: int, blocks: seq<Block>)

  /** `$block['attrs'] ?? []`. */
  function AttrsOf(b: Block): (a: map<string, Value>)
    ensures b.attrs.None? ==> a == map[]
    ensures b.attrs.Some? ==> a == b.attrs.value
  {
    b.attrs.GetOr(map[])
  }

  /** The entry a variant block contributes: its name and its attributes. */
  function VariantEntryOf(b: Block): VariantEntry {
    VariantEntry(b.blockName, AttrsOf(b))
  }

  /** The direct inner blocks named `variant`, in order. */
  function VariantsOf(inner: seq<Block>): (vs: seq<VariantEntry>)
    ensures |vs| <= |inner|
    ensures forall v :: v in vs ==> v.blockName == VariantBlockName
    ensures forall v :: v in vs <==> exists b :: b in inner && b.blockName == VariantBlockName && v == VariantEntryOf(b)
  {
    if |inner| == 0 then []
    else
      var head := if inner[0].blockName == VariantBlockName
                  then [VariantEntryOf(inner[0])] else [];
      head + VariantsOf(inner[1..])
  }

  /** The report entry of one optimization block. */
  function EntryFor(b: Block, postId: int): (e: Entry)
    ensures e.postId == postId && e.attributes == AttrsOf(b)
  {
    Entry(postId, AttrsOf(b), VariantsOf(b.innerBlocks))
  }

  /** The recursive `$extract_blocks` closure: for each block, its entry if it
      is an optimization, then everything found in its inner blocks. */
  function ExtractBlocks(blocks: seq<Block>, postId: int): seq<Entry>
    decreases blocks
  {
    if |blocks| == 0 then []
    else
      var b := blocks[0];
      assert b in blocks;
      var own := if b.blockName == OptimizationBlockName then [EntryFor(b, postId)] else [];
      var nested := if |b.innerBlocks| > 0 then ExtractBlocks(b.innerBlocks, postId) else [];
      own + nested + ExtractBlocks(blocks[1..], postId)
  }

  /** `get_optimizations`: the entries of each post, post by post. */
  function GetOptimizations(posts: seq<Post>): (es: seq<Entry>)
    ensures forall e :: e in es ==> exists p :: p in posts && p.id == e.postId
  {
    if |posts| == 0 then []
    else
      var first := ExtractBlocks(posts[0].blocks, posts[0].id);
      ExtractBlocksCarriesPostId(posts[0].blocks, posts[0].id);
      var rest := GetOptimizations(posts[1..]);
      assert forall e :: e in rest ==> exists p :: p in posts && p.id == e.postId by {
        forall e | e in rest ensures exists p :: p in posts && p.id == e.postId {
          var p :| p in posts[1..] && p.id == e.postId;
          assert p in posts;
        }
      }
      first + rest
  }

  /** The status cell: "Active" iff `status` is set and truthy. */
  function StatusLabel(attributes: map<string, Value>): (cell: string)
    ensures cell == ActiveLabel <==> IsSetAndTruthy(attributes, "status")
    ensures cell == ActiveLabel || cell == DeactivatedLabel
  {
    if "status" in attributes && attributes["status"] != Null && PhpTruthy(attributes["status"])
    then ActiveLabel else DeactivatedLabel
  }

  // Reference definitions: the tree listed in document order.

  /** Every block at any depth, in document (pre-)order. */
  function Preorder(blocks: seq<Block>): seq<Block>
    decreases blocks
  {
    if |blocks| == 0 then []
    else
      assert blocks[0] in blocks;
      [blocks[0]] + Preorder(blocks[0].innerBlocks) + Preorder(blocks[1..])
  }

  /** The entries of the optimization blocks of a flat list, in list order. */
  function EntriesOfFlat(bs: seq<Block>, postId: int): seq<Entry> {
    if |bs| == 0 then []
    else (if bs[0].blockName == OptimizationBlockName then [EntryFor(bs[0], postId)] else [])
         + EntriesOfFlat(bs[1..], postId)
  }

  lemma {:induction false} EntriesOfFlatAppend(a: seq<Block>, b: seq<Block>, postId: int)
    ensures EntriesOfFlat(a + b, postId) == EntriesOfFlat(a, postId) + EntriesOfFlat(b, postId)
  {
    if |a| > 0 {
      assert (a + b)[1..] == a[1..] + b;
      EntriesOfFlatAppend(a[1..], b, postId);
    } else {
      assert a + b == b;
    }
  }

  /** The report lists exactly the optimization blocks, at every depth, in
      document order, each once. */
  lemma {:induction false} ExtractIsPreorderFilter(blocks: seq<Block>, postId: int)
    ensures ExtractBlocks(blocks, postId) == EntriesOfFlat(Preorder(blocks), postId)
    decreases blocks
  {
    if |blocks| > 0 {
      var b := blocks[0];
      assert b in blocks;
      ExtractIsPreorderFilter(b.innerBlocks, postId);
      ExtractIsPreorderFilter(blocks[1..], postId);
      EntriesOfFlatAppend([b] + Preorder(b.innerBlocks), Preorder(blocks[1..]), postId);
      EntriesOfFlatAppend([b], Preorder(b.innerBlocks), postId);
      assert EntriesOfFlat([b], postId)
          == (if b.blockName == OptimizationBlockName then [EntryFor(b, postId)] else []);
    }
  }

  lemma {:induction false} ExtractBlocksCarriesPostId(blocks: seq<Block>, postId: int)
    ensures forall e :: e in ExtractBlocks(blocks, postId) ==> e.postId == postId
    decreases blocks
  {
    if |blocks| > 0 {
      assert blocks[0] in blocks;
      ExtractBlocksCarriesPostId(blocks[0].innerBlocks, postId);
      ExtractBlocksCarriesPostId(blocks[1..], postId);
    }
  }

  lemma {:induction false} EntriesOfFlatMember(bs: seq<Block>, postId: int, x: Block)
    requires x in bs && x.blockName == OptimizationBlockName
    ensures EntryFor(x, postId) in EntriesOfFlat(bs, postId)
  {
    if bs[0] != x {
      EntriesOfFlatMember(bs[1..], postId, x);
    }
  }

  /** An optimization block nested anywhere, inside another optimization
      included, has its entry in the report. */
  lemma EveryOptimizationReported(blocks: seq<Block>, postId: int, x: Block)
    requires x in Preorder(blocks) && x.blockName == OptimizationBlockName
    ensures EntryFor(x, postId) in ExtractBlocks(blocks, postId)
  {
    ExtractIsPreorderFilter(blocks, postId);
    EntriesOfFlatMember(Preorder(blocks), postId, x);
  }

  /** Number of optimization blocks at any depth. */
  function CountOptimizations(blocks: seq<Block>): nat
    decreases blocks
  {
    if |blocks| == 0 then 0
    else
      assert blocks[0] in blocks;
      (if blocks[0].blockName == OptimizationBlockName then 1 else 0)
      + CountOptimizations(blocks[0].innerBlocks) + CountOptimizations(blocks[1..])
  }

  /** One entry per optimization block, however deeply nested. */
  lemma {:induction false} OneEntryPerOptimization(blocks: seq<Block>, postId: int)
    ensures |ExtractBlocks(blocks, postId)| == CountOptimizations(blocks)
    decreases blocks
  {
    if |blocks| > 0 {
      assert blocks[0] in blocks;
      OneEntryPerOptimization(blocks[0].innerBlocks, postId);
      OneEntryPerOptimization(blocks[1..], postId);
    }
  }

  /** The variants of an entry depend only on the names and attributes of the
      direct inner blocks: whatever is nested below them is not looked at. */
  lemma {:induction false} VariantsIgnoreDeeperBlocks(inner: seq<Block>, other: seq<Block>)
    requires |inner| == |other|
    requires forall i :: 0 <= i < |inner| ==>
      inner[i].blockName == other[i].blockName && inner[i].attrs == other[i].attrs
    ensures VariantsOf(inner) == VariantsOf(other)
  {
    if |inner| > 0 {
      VariantsIgnoreDeeperBlocks(inner[1..], other[1..]);
    }
  }

  /** The variants keep the order of the inner blocks: those of a list are
      those of its front followed by those of its back. */
  lemma {:induction false} VariantsOfAppend(a: seq<Block>, b: seq<Block>)
    ensures VariantsOf(a + b) == VariantsOf(a) + VariantsOf(b)
  {
    if |a| > 0 {
      assert (a + b)[1..] == a[1..] + b;
      VariantsOfAppend(a[1..], b);
    } else {
      assert a + b == b;
    }
  }

  /** One inner block gives its own entry, attributes `[]` when it has none,
      if it is named `variant`, and nothing otherwise. Together with
      `VariantsOfAppend` this fixes the variants of any list. */
  lemma VariantsOfSingle(b: Block)
    ensures b.blockName == VariantBlockName ==>
      VariantsOf([b]) == [VariantEntry(VariantBlockName, b.attrs.GetOr(map[]))]
    ensures b.blockName != VariantBlockName ==> VariantsOf([b]) == []
  {
    assert [b][1..] == [];
  }

  /** The number of variants is the number of direct inner blocks named `variant`. */
  function CountNamed(bs: seq<Block>, name: string): nat {
    if |bs| == 0 then 0 else (if bs[0].blockName == name then 1 else 0) + CountNamed(bs[1..], name)
  }

  lemma {:induction false} VariantCount(inner: seq<Block>)
    ensures |VariantsOf(inner)| == CountNamed(inner, VariantBlockName)
  {
    if |inner| > 0 {
      VariantCount(inner[1..]);
    }
  }

  /** The report of several posts is the concatenation of the single-post
      reports, in the order of the ids. */
  lemma {:induction false} PostsInOrder(posts: seq<Post>, more: seq<Post>)
    ensures GetOptimizations(posts + more) == GetOptimizations(posts) + GetOptimizations(more)
  {
    if |posts| > 0 {
      assert (posts + more)[1..] == posts[1..] + more;
      PostsInOrder(posts[1..], more);
    } else {
      assert posts + more == more;
    }
  }
}
