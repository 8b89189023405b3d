/** `StreamQueue`: many streams in one flat list, a queue of tags and a map of iterators into the list. */
module StreamQueues {
  import opened StreamSpec

  datatype Kind = DataItem | Uncompleted | CompletedTag | DeletedTag | ErrorTag

  /** An item is also the iterator to its own place in the list. */
  class QueueItem<T> {
    var kind: Kind
    var polling: bool
    var err: nat
    const id: int
    var content: Option<T>
    /** The stream the item belongs to, and whether it is its tag. */
    ghost const home: int
    ghost const isTag: bool

    constructor Tag(id: int)
      ensures this.id == home == id && isTag
      ensures kind == Uncompleted && !polling && err == 0 && content == None
    {
      kind, polling, err, this.id, content, home, isTag := Uncompleted, false, 0, id, None, id, true;
    }

    constructor Data(content: T, ghost home: int)
      ensures this.home == home && !isTag && kind == DataItem && this.content == Some(content)
    {
      kind, polling, err, id, this.content, this.home, isTag := DataItem, false, 0, 0, Some(content), home, false;
    }
  }

  type Items<T> = seq<QueueItem<T>>

  // ---------------------------------------------------------------- blocks: the data of a stream and its tag

  ghost function Tag<T>(b: Items<T>): QueueItem<T>
    requires b != []
  {
    b[|b| - 1]
  }

  /** What never changes about a block's items. */
  ghost predicate Grouped<T>(b: Items<T>) {
    && b != [] && Tag(b).isTag && Tag(b).home == Tag(b).id
    && forall i | 0 <= i < |b| - 1 :: !b[i].isTag && b[i].home == Tag(b).id
  }

  ghost predicate BlockOk<T>(b: Items<T>)
    reads b
  {
    && Grouped(b)
    && !Tag(b).kind.DataItem?
    && (forall i | 0 <= i < |b| - 1 :: b[i].kind.DataItem? && b[i].content.Some?)
    && (Tag(b).kind.DeletedTag? || Tag(b).kind.ErrorTag? ==> |b| == 1)
  }

  ghost function StatusOf(kind: Kind): Status {
    match kind
    case Uncompleted => Open
    case CompletedTag => Completed
    case DeletedTag => Deleted
    case _ => Failed
  }

  ghost function StreamOf<T>(b: Items<T>): Stream<T>
    reads b
    requires BlockOk(b)
  {
    var t := Tag(b);
    Stream(t.id, t.polling, StatusOf(t.kind), t.err,
           seq(|b| - 1, i requires 0 <= i < |b| - 1 && b[i].content.Some? reads b => b[i].content.value), t.content)
  }

  /** The blocks belong to different streams. */
  ghost predicate Apart<T>(blocks: seq<Items<T>>) {
    && (forall i | 0 <= i < |blocks| :: Grouped(blocks[i]))
    && (forall i, j | 0 <= i < j < |blocks| :: Tag(blocks[i]).id != Tag(blocks[j]).id)
  }

  /** The place of an item in the list. */
  function Where<T>(queue: Items<T>, x: QueueItem<T>): (k: nat)
    requires x in queue
    ensures k < |queue| && queue[k] == x && x !in queue[..k]
  {
    if queue[0] == x then 0
    else
      var k := 1 + Where(queue[1..], x);
      assert queue[..k] == [queue[0]] + queue[1..][..k - 1];
      k
  }

  lemma {:induction false} FlatSplit<T>(blocks: seq<seq<T>>, j: nat)
    requires j < |blocks|
    ensures Flat(blocks) == Flat(blocks[..j]) + blocks[j] + Flat(blocks[j + 1..])
    decreases |blocks|
  {
    var n := |blocks| - 1;
    if j == n {
      assert blocks[j + 1..] == [];
    } else {
      FlatSplit(blocks[..n], j);
      assert blocks[..n][..j] == blocks[..j];
      assert blocks[..n][j + 1..] == blocks[j + 1..][..n - j - 1];
    }
  }

  lemma {:induction false} FlatMember<T>(blocks: seq<seq<T>>, x: T) returns (i: nat)
    requires x in Flat(blocks)
    ensures i < |blocks| && x in blocks[i]
    decreases |blocks|
  {
    var n := |blocks| - 1;
    if x in blocks[n] {
      i := n;
    } else {
      i := FlatMember(blocks[..n], x);
    }
  }

  lemma {:induction false} WhereFirst<T>(queue: Items<T>, x: QueueItem<T>, k: nat)
    requires k < |queue| && queue[k] == x && x !in queue[..k]
    ensures Where(queue, x) == k
    decreases k
  {
    if k > 0 {
      assert queue[..k][0] == queue[0];
      assert queue[1..][..k - 1] == queue[..k][1..];
      WhereFirst(queue[1..], x, k - 1);
    }
  }

  /** The list around block `j`; its tag occurs nowhere earlier. */
  lemma AroundBlock<T>(blocks: seq<Items<T>>, j: nat) returns (pre: Items<T>, post: Items<T>)
    requires Apart(blocks) && j < |blocks|
    ensures pre == Flat(blocks[..j]) && post == Flat(blocks[j + 1..])
    ensures Flat(blocks) == pre + blocks[j] + post
    ensures Tag(blocks[j]) in Flat(blocks)
    ensures Where(Flat(blocks), Tag(blocks[j])) == |pre| + |blocks[j]| - 1
    ensures pre != [] ==> j > 0 && pre[|pre| - 1] == Tag(blocks[j - 1])
  {
    pre, post := Flat(blocks[..j]), Flat(blocks[j + 1..]);
    FlatSplit(blocks, j);
    var b, t := blocks[j], Tag(blocks[j]);
    assert Grouped(b);
    forall x | x in pre ensures x != t {
      var i := FlatMember(blocks[..j], x);
      assert Grouped(blocks[i]);
    }
    var q, k := Flat(blocks), |pre| + |b| - 1;
    assert q[k] == t;
    assert q[..k] == pre + b[..|b| - 1];
    WhereFirst(q, t, k);
    if pre != [] {
      assert blocks[..j][..j - 1] == blocks[..j - 1];
      assert Grouped(blocks[j - 1]);
    }
  }

  /** The list after block `j` became `b`. */
  lemma ReplacedBlock<T>(blocks: seq<seq<T>>, j: nat, b: seq<T>)
    requires j < |blocks|
    ensures Flat(blocks[j := b]) == Flat(blocks[..j]) + b + Flat(blocks[j + 1..])
  {
    FlatSplit(blocks[j := b], j);
    assert blocks[j := b][..j] == blocks[..j];
    assert blocks[j := b][j + 1..] == blocks[j + 1..];
  }

  /** The list is the blocks in tag order; the map holds exactly the tags, by id. */
  ghost predicate Linked<T>(queue: Items<T>, tagQueue: Items<T>, itemTags: map<int, QueueItem<T>>,
                            blocks: seq<Items<T>>)
  {
    && queue == Flat(blocks)
    && Apart(blocks)
    && |tagQueue| == |blocks|
    && (forall j | 0 <= j < |blocks| :: tagQueue[j] == Tag(blocks[j]))
    && (forall j | 0 <= j < |blocks| :: tagQueue[j].id in itemTags && itemTags[tagQueue[j].id] == tagQueue[j])
    && (forall id | id in itemTags :: itemTags[id] in tagQueue && itemTags[id].id == id)
  }

  lemma LinkedAppend<T>(queue: Items<T>, tagQueue: Items<T>, itemTags: map<int, QueueItem<T>>, blocks: seq<Items<T>>,
                        item: QueueItem<T>)
    requires Linked(queue, tagQueue, itemTags, blocks) && item.isTag && item.home == item.id && item.id !in itemTags
    ensures Linked(queue + [item], tagQueue + [item], itemTags[item.id := item], blocks + [[item]])
  {
    var blocks' := blocks + [[item]];
    assert blocks'[..|blocks|] == blocks;
    assert Grouped([item]);
  }

  lemma LinkedReplace<T>(queue: Items<T>, tagQueue: Items<T>, itemTags: map<int, QueueItem<T>>, blocks: seq<Items<T>>,
                         j: nat, b: Items<T>)
    requires Linked(queue, tagQueue, itemTags, blocks) && j < |blocks| && Grouped(b) && Tag(b) == Tag(blocks[j])
    ensures Linked(Flat(blocks[..j]) + b + Flat(blocks[j + 1..]), tagQueue, itemTags, blocks[j := b])
  {
    ReplacedBlock(blocks, j, b);
  }

  /** A block with `item` put before its tag. */
  ghost function Inserted<T>(b: Items<T>, item: QueueItem<T>): Items<T>
    requires b != []
  {
    b[..|b| - 1] + [item, Tag(b)]
  }

  lemma LinkedInsert<T>(queue: Items<T>, tagQueue: Items<T>, itemTags: map<int, QueueItem<T>>, blocks: seq<Items<T>>,
                        j: nat, item: QueueItem<T>)
    requires Linked(queue, tagQueue, itemTags, blocks) && j < |blocks| && blocks[j] != []
    requires !item.isTag && item.home == Tag(blocks[j]).id && Tag(blocks[j]) in queue
    ensures var k := Where(queue, Tag(blocks[j]));
      Linked(queue[..k] + [item] + queue[k..], tagQueue, itemTags, blocks[j := Inserted(blocks[j], item)])
  {
    hide Flat;
    var b := blocks[j];
    assert Grouped(b);
    var pre, post := AroundBlock(blocks, j);
    hide Linked, Apart;
    LinkedReplace(queue, tagQueue, itemTags, blocks, j, Inserted(b, item));
    var k := Where(queue, Tag(b));
    assert queue[..k] + [item] + queue[k..] == pre + Inserted(b, item) + post;
  }

  lemma LinkedApart<T>(queue: Items<T>, tagQueue: Items<T>, itemTags: map<int, QueueItem<T>>, blocks: seq<Items<T>>)
    requires Linked(queue, tagQueue, itemTags, blocks)
    ensures Apart(blocks)
  {
  }

  lemma TagFields<T>(b: Items<T>)
    requires BlockOk(b)
    ensures StreamOf(b).polling == Tag(b).polling && StreamOf(b).err == Tag(b).err
    ensures StreamOf(b).content == Tag(b).content
    ensures StreamOf(b).status == StatusOf(Tag(b).kind) && !Tag(b).kind.DataItem?
    ensures |b| == 1 ==> StreamOf(b).data == []
  {
  }

  lemma BlockParts<T>(b: Items<T>)
    requires BlockOk(b)
    ensures Grouped(b) && StreamOf(b).id == Tag(b).id && |StreamOf(b).data| == |b| - 1
    ensures forall i | 0 <= i < |b| - 1 ::
      b[i] != Tag(b) && b[i].kind.DataItem? && b[i].content == Some(StreamOf(b).data[i])
  {
  }

  lemma BlockFrom<T>(b: Items<T>, data: seq<T>)
    requires Grouped(b) && |data| == |b| - 1 && !Tag(b).kind.DataItem?
    requires forall i | 0 <= i < |b| - 1 :: b[i].kind.DataItem? && b[i].content == Some(data[i])
    requires Tag(b).kind.DeletedTag? || Tag(b).kind.ErrorTag? ==> data == []
    ensures BlockOk(b)
    ensures StreamOf(b) == Stream(Tag(b).id, Tag(b).polling, StatusOf(Tag(b).kind), Tag(b).err, data, Tag(b).content)
  {
  }

  /** The first item of a block is its tag iff there is no data. */
  lemma BlockFirst<T>(b: Items<T>)
    requires BlockOk(b)
    ensures b[0].kind.DataItem? <==> |b| > 1
    ensures |b| == 1 ==> b == [b[0]]
  {
  }

  lemma LinkedEnds<T>(queue: Items<T>, tagQueue: Items<T>, itemTags: map<int, QueueItem<T>>, blocks: seq<Items<T>>,
                      items: set<QueueItem<T>>)
    requires Linked(queue, tagQueue, itemTags, blocks) && BlocksOk(blocks, items)
    ensures |tagQueue| == |blocks|
    ensures forall j | 0 <= j < |tagQueue| :: tagQueue[j].id == StreamsOf(blocks, items)[j].id
  {
  }

  lemma TagAlone<T>(tag: QueueItem<T>)
    requires Grouped([tag]) && !tag.kind.DataItem?
    ensures BlockOk([tag])
    ensures StreamOf([tag]) == Stream(tag.id, tag.polling, StatusOf(tag.kind), tag.err, [], tag.content)
  {
  }

  lemma LinkedTag<T>(queue: Items<T>, tagQueue: Items<T>, itemTags: map<int, QueueItem<T>>, blocks: seq<Items<T>>,
                     j: nat)
    requires Linked(queue, tagQueue, itemTags, blocks) && j < |blocks|
    ensures blocks[j] != [] && Tag(blocks[j]) in queue && Grouped(blocks[j])
  {
    var pre, post := AroundBlock(blocks, j);
  }

  /** The list around a tag: its data before it, and before those the tag of the block in front. */
  lemma LinkedBack<T>(queue: Items<T>, tagQueue: Items<T>, itemTags: map<int, QueueItem<T>>, blocks: seq<Items<T>>,
                      j: nat)
    requires Linked(queue, tagQueue, itemTags, blocks) && j < |blocks| && blocks[j] != [] && Tag(blocks[j]) in queue
    ensures var b, k := blocks[j], Where(queue, Tag(blocks[j]));
      && k >= |b| - 1
      && queue[k - (|b| - 1)..k] == b[..|b| - 1]
      && (k > |b| - 1 ==> j > 0 && blocks[j - 1] != [] && queue[k - |b|] == Tag(blocks[j - 1]))
  {
    hide Flat;
    var b := blocks[j];
    assert Grouped(b) && (j > 0 ==> Grouped(blocks[j - 1]));
    var pre, post := AroundBlock(blocks, j);
  }

  lemma LinkedShrink<T>(queue: Items<T>, tagQueue: Items<T>, itemTags: map<int, QueueItem<T>>, blocks: seq<Items<T>>,
                        j: nat)
    requires Linked(queue, tagQueue, itemTags, blocks) && j < |blocks| && blocks[j] != [] && Tag(blocks[j]) in queue
    ensures var b, k := blocks[j], Where(queue, Tag(blocks[j]));
      k >= |b| - 1 && Linked(queue[..k - (|b| - 1)] + queue[k..], tagQueue, itemTags, blocks[j := [Tag(b)]])
  {
    hide Flat;
    var b := blocks[j];
    assert Grouped(b);
    var pre, post := AroundBlock(blocks, j);
    LinkedReplace(queue, tagQueue, itemTags, blocks, j, [Tag(b)]);
    var k := Where(queue, Tag(b));
    assert queue[..k - (|b| - 1)] + queue[k..] == pre + [Tag(b)] + post;
  }

  lemma {:induction false} FlatFirst<T>(blocks: seq<seq<T>>)
    requires blocks != []
    ensures Flat(blocks) == blocks[0] + Flat(blocks[1..])
  {
    FlatSplit(blocks, 0);
  }

  /** The front of the list is the front of the first block. */
  lemma LinkedFront<T>(queue: Items<T>, tagQueue: Items<T>, itemTags: map<int, QueueItem<T>>, blocks: seq<Items<T>>)
    requires Linked(queue, tagQueue, itemTags, blocks) && blocks != []
    ensures tagQueue != [] && Grouped(blocks[0]) && tagQueue[0] == Tag(blocks[0])
    ensures queue != [] && queue[0] == blocks[0][0] && (queue[0] == tagQueue[0] <==> |blocks[0]| == 1)
    ensures queue[1..] == blocks[0][1..] + Flat(blocks[1..])
  {
    hide Flat;
    FlatFirst(blocks);
    assert Grouped(blocks[0]);
  }

  lemma {:induction false} SinglesLength<T>(blocks: seq<seq<T>>)
    requires forall i | 0 <= i < |blocks| :: |blocks[i]| == 1
    ensures |Flat(blocks)| == |blocks|
    decreases |blocks|
  {
    if blocks != [] { SinglesLength(blocks[..|blocks| - 1]); }
  }

  /** Once the first `j` blocks are down to their tags, item `j` is the first of block `j`. */
  lemma LinkedAt<T>(queue: Items<T>, tagQueue: Items<T>, itemTags: map<int, QueueItem<T>>, blocks: seq<Items<T>>,
                    j: nat)
    requires Linked(queue, tagQueue, itemTags, blocks) && j <= |blocks|
    requires forall i | 0 <= i < j :: |blocks[i]| == 1
    ensures if j == |blocks| then |queue| == j else j < |queue| && blocks[j] != [] && queue[j] == blocks[j][0]
    ensures j < |blocks| && |blocks[j]| > 1 ==>
      Linked(queue[..j] + queue[j + 1..], tagQueue, itemTags, blocks[j := blocks[j][1..]])
  {
    hide Flat;
    SinglesLength(blocks[..j]);
    if j == |blocks| {
      assert blocks[..j] == blocks;
    } else {
      assert Grouped(blocks[j]);
      var b := blocks[j];
      var pre, post := AroundBlock(blocks, j);
      if |b| > 1 {
        assert Tag(b[1..]) == Tag(b) && Grouped(b[1..]);
        LinkedReplace(queue, tagQueue, itemTags, blocks, j, b[1..]);
        assert queue[..j] + queue[j + 1..] == pre + b[1..] + post;
      }
    }
  }

  lemma LinkedPopTag<T>(queue: Items<T>, tagQueue: Items<T>, itemTags: map<int, QueueItem<T>>, blocks: seq<Items<T>>)
    requires Linked(queue, tagQueue, itemTags, blocks) && blocks != [] && |blocks[0]| == 1 && queue != []
    ensures Linked(queue[1..], tagQueue[1..], itemTags - {tagQueue[0].id}, blocks[1..])
  {
    hide Flat;
    LinkedFront(queue, tagQueue, itemTags, blocks);
    assert queue[1..] == Flat(blocks[1..]);
    forall id | id in itemTags - {tagQueue[0].id} ensures itemTags[id] in tagQueue[1..] {
      var j :| 0 <= j < |tagQueue| && tagQueue[j] == itemTags[id];
      assert tagQueue[1..][j - 1] == itemTags[id];
    }
    ApartTail(blocks);
    assert forall j | 0 <= j < |blocks[1..]| :: tagQueue[1..][j] == tagQueue[j + 1] && blocks[1..][j] == blocks[j + 1];
  }

  lemma ApartTail<T>(blocks: seq<Items<T>>)
    requires Apart(blocks) && blocks != []
    ensures Apart(blocks[1..])
  {
    assert forall j | 0 <= j < |blocks[1..]| :: blocks[1..][j] == blocks[j + 1];
  }

  ghost predicate BlocksOk<T>(blocks: seq<Items<T>>, items: set<QueueItem<T>>)
    reads items
  {
    forall j | 0 <= j < |blocks| :: (forall x | x in blocks[j] :: x in items) && BlockOk(blocks[j])
  }

  ghost function StreamsOf<T>(blocks: seq<Items<T>>, items: set<QueueItem<T>>): (q: Streams<T>)
    reads items
    requires BlocksOk(blocks, items)
    ensures |q| == |blocks|
  {
    seq(|blocks|, j requires 0 <= j < |blocks| && BlocksOk(blocks, items) reads items => StreamOf(blocks[j]))
  }

  /** Another block in one place, perhaps with new items. */
  lemma OneStream<T>(blocks: seq<Items<T>>, items: set<QueueItem<T>>, j: nat, b: Items<T>, items': set<QueueItem<T>>)
    requires BlocksOk(blocks, items) && j < |blocks| && items <= items'
    requires BlockOk(b) && forall x | x in b :: x in items'
    ensures BlocksOk(blocks[j := b], items')
    ensures StreamsOf(blocks[j := b], items') == StreamsOf(blocks, items)[j := StreamOf(b)]
  {
    hide BlockOk, StreamOf;
  }

  lemma BlockGrew<T>(b: Items<T>, item: QueueItem<T>, data: T)
    requires BlockOk(b) && Tag(b).kind.Uncompleted?
    requires !item.isTag && item.home == Tag(b).id && item.kind.DataItem? && item.content == Some(data)
    ensures BlockOk(Inserted(b, item))
    ensures StreamOf(Inserted(b, item)) == StreamOf(b).(data := StreamOf(b).data + [data])
  {
  }

  lemma BlockShrank<T>(b: Items<T>)
    requires BlockOk(b) && |b| > 1
    ensures BlockOk(b[1..]) && Tag(b[1..]) == Tag(b)
    ensures StreamOf(b).data != [] && b[0].content == Some(StreamOf(b).data[0])
    ensures StreamOf(b[1..]) == StreamOf(b).(data := StreamOf(b).data[1..])
  {
  }

  /** What lies before a tag: its data, and before that another tag or nothing. */
  lemma DataBefore<T>(queue: Items<T>, tagQueue: Items<T>, itemTags: map<int, QueueItem<T>>, blocks: seq<Items<T>>,
                      items: set<QueueItem<T>>, j: nat)
    requires Linked(queue, tagQueue, itemTags, blocks) && BlocksOk(blocks, items)
    requires j < |blocks| && blocks[j] != [] && Tag(blocks[j]) in queue
    ensures var last := Where(queue, Tag(blocks[j]));
      var lo := last - (|blocks[j]| - 1);
      && 0 <= lo
      && (forall i | lo <= i < last :: queue[i].kind.DataItem?)
      && (lo > 0 ==> !queue[lo - 1].kind.DataItem?)
  {
    hide Linked, Grouped, BlockOk, StreamOf;
    var b := blocks[j];
    LinkedBack(queue, tagQueue, itemTags, blocks, j);
    BlockParts(b);
    var last := Where(queue, Tag(b));
    var lo := last - (|b| - 1);
    assert forall i | lo <= i < last :: queue[i] == queue[lo..last][i - lo];
    if lo > 0 { TagFields(blocks[j - 1]); }
  }

  lemma LoneTag<T>(item: QueueItem<T>)
    requires item.isTag && item.home == item.id
    ensures Grouped([item])
  {
  }

  lemma GroupedAlone<T>(b: Items<T>)
    requires Grouped(b)
    ensures Grouped([Tag(b)])
  {
  }

  /** A tag is in no block but its own. */
  lemma TagElsewhere<T>(blocks: seq<Items<T>>, j: nat)
    requires Apart(blocks) && j < |blocks|
    ensures forall i | 0 <= i < |blocks| && i != j :: Tag(blocks[j]) !in blocks[i]
  {
    forall i | 0 <= i < |blocks| && i != j ensures Tag(blocks[j]) !in blocks[i] {
      assert Grouped(blocks[i]) && Grouped(blocks[j]);
    }
  }

  /** Looking an id up in the map finds the stream's tag. */
  lemma LookUp<T>(queue: Items<T>, tagQueue: Items<T>, itemTags: map<int, QueueItem<T>>, blocks: seq<Items<T>>,
                  q: Streams<T>, id: int)
    requires Linked(queue, tagQueue, itemTags, blocks) && |q| == |blocks|
    requires forall j | 0 <= j < |q| :: q[j].id == Tag(blocks[j]).id
    ensures id in itemTags <==> Has(q, id)
    ensures Has(q, id) ==> itemTags[id] == Tag(blocks[Index(q, id)])
  {
    if id in itemTags {
      var j :| 0 <= j < |tagQueue| && tagQueue[j] == itemTags[id];
      assert q[j].id == id;
    }
    var i := Index(q, id);
    if i < |q| {
      assert tagQueue[i].id == id;
    }
  }

  lemma OneBlock<T>(blocks: seq<Items<T>>, items: set<QueueItem<T>>, j: nat)
    requires BlocksOk(blocks, items) && j < |blocks| && |blocks[j]| == 1
    ensures var s, t := StreamsOf(blocks, items)[j], Tag(blocks[j]);
      s.polling == t.polling && s.err == t.err && s.data == []
  {
  }

  /** Reducing a block to its tag empties its stream. */
  lemma AloneKeeps<T>(blocks: seq<Items<T>>, items: set<QueueItem<T>>, j: nat)
    requires BlocksOk(blocks, items) && WellFormed(StreamsOf(blocks, items)) && j < |blocks| && blocks[j] != []
    ensures BlocksOk(blocks[j := [Tag(blocks[j])]], items)
    ensures var q := StreamsOf(blocks, items);
      StreamsOf(blocks[j := [Tag(blocks[j])]], items) == q[j := q[j].(data := [])]
    ensures WellFormed(StreamsOf(blocks[j := [Tag(blocks[j])]], items))
  {
    hide WellFormed, Grouped, BlockOk, StreamOf;
    var q, b := StreamsOf(blocks, items), blocks[j];
    BlockParts(b);
    TagFields(b);
    GroupedAlone(b);
    TagAlone(Tag(b));
    OneStream(blocks, items, j, [Tag(b)], items);
    UpdateKeeps(q, j, StreamOf([Tag(b)]));
  }

  /** Putting a new item before the tag extends its stream. */
  lemma InsertedKeeps<T>(blocks: seq<Items<T>>, items: set<QueueItem<T>>, j: nat, item: QueueItem<T>, data: T)
    requires BlocksOk(blocks, items) && WellFormed(StreamsOf(blocks, items)) && j < |blocks| && blocks[j] != []
    requires Tag(blocks[j]).kind.Uncompleted?
    requires !item.isTag && item.home == Tag(blocks[j]).id && item.kind.DataItem? && item.content == Some(data)
    ensures BlocksOk(blocks[j := Inserted(blocks[j], item)], items + {item})
    ensures var q := StreamsOf(blocks, items);
      StreamsOf(blocks[j := Inserted(blocks[j], item)], items + {item}) == q[j := q[j].(data := q[j].data + [data])]
    ensures WellFormed(StreamsOf(blocks[j := Inserted(blocks[j], item)], items + {item}))
  {
    hide WellFormed, Grouped, BlockOk, StreamOf;
    var q, b := StreamsOf(blocks, items), blocks[j];
    TagFields(b);
    BlockGrew(b, item, data);
    OneStream(blocks, items, j, Inserted(b, item), items + {item});
    UpdateKeeps(q, j, StreamOf(Inserted(b, item)));
  }

  /** Taking the first data item of a block takes the first item of its stream. */
  lemma RemovedKeeps<T>(blocks: seq<Items<T>>, items: set<QueueItem<T>>, j: nat)
    requires BlocksOk(blocks, items) && WellFormed(StreamsOf(blocks, items)) && j < |blocks| && |blocks[j]| > 1
    ensures BlocksOk(blocks[j := blocks[j][1..]], items)
    ensures var q := StreamsOf(blocks, items);
      q[j].data != [] && StreamsOf(blocks[j := blocks[j][1..]], items) == q[j := q[j].(data := q[j].data[1..])]
    ensures WellFormed(StreamsOf(blocks[j := blocks[j][1..]], items))
  {
    hide WellFormed, Grouped, BlockOk, StreamOf;
    var q, b := StreamsOf(blocks, items), blocks[j];
    BlockShrank(b);
    EmptyBlock(b);
    OneStream(blocks, items, j, b[1..], items);
    UpdateKeeps(q, j, StreamOf(b[1..]));
  }

  /** Erased streams have no data items. */
  lemma EmptyBlock<T>(b: Items<T>)
    requires BlockOk(b) && |b| > 1
    ensures !StreamOf(b).status.Deleted? && !StreamOf(b).status.Failed?
  {
  }

  /** A new tag at the end is a new stream. */
  lemma AppendedKeeps<T>(blocks: seq<Items<T>>, items: set<QueueItem<T>>, item: QueueItem<T>)
    requires BlocksOk(blocks, items) && WellFormed(StreamsOf(blocks, items)) && !Has(StreamsOf(blocks, items), item.id)
    requires Grouped([item]) && item.kind == Uncompleted && !item.polling && item.err == 0 && item.content == None
    ensures BlocksOk(blocks + [[item]], items + {item})
    ensures StreamsOf(blocks + [[item]], items + {item}) == Begin(StreamsOf(blocks, items), item.id)
    ensures WellFormed(StreamsOf(blocks + [[item]], items + {item}))
  {
    hide WellFormed, Grouped, BlockOk, StreamOf;
    TagAlone(item);
    BeginKeeps(StreamsOf(blocks, items), item.id);
  }

  class StreamQueue<T> {
    var queue: Items<T>
    var tagQueue: Items<T>
    var itemTags: map<int, QueueItem<T>>
    ghost var blocks: seq<Items<T>>
    ghost var items: set<QueueItem<T>>

    ghost predicate Valid()
      reads this, items
    {
      Linked(queue, tagQueue, itemTags, blocks) && BlocksOk(blocks, items) && WellFormed(StreamsOf(blocks, items))
    }

    ghost function Streams(): Streams<T>
      reads this, items
      requires Valid()
    {
      StreamsOf(blocks, items)
    }

    constructor ()
      ensures Valid() && Streams() == [] && items == {}
    {
      queue, tagQueue, itemTags, blocks, items := [], [], map[], [], {};
    }

    lemma Find(id: int)
      requires Valid()
      ensures id in itemTags <==> Has(Streams(), id)
      ensures Has(Streams(), id) ==> itemTags[id] == Tag(blocks[Index(Streams(), id)])
    {
      LookUp(queue, tagQueue, itemTags, blocks, Streams(), id);
    }

    /** `start` */
    method Begin(id: int) returns (ok: bool)
      requires Valid()
      modifies this
      ensures Valid() && fresh(items - old(items))
      ensures ok == !Has(old(Streams()), id)
      ensures Streams() == StreamSpec.Begin(old(Streams()), id)
    {
      hide Linked, WellFormed, BlocksOk, StreamsOf, Grouped;
      Find(id);
      if id in itemTags {
        return false;
      }
      var item := new QueueItem<T>.Tag(id);
      LinkedAppend(queue, tagQueue, itemTags, blocks, item);
      LoneTag(item);
      AppendedKeeps(blocks, items, item);
      queue := queue + [item];
      itemTags := itemTags[id := item];
      tagQueue := tagQueue + [item];
      blocks := blocks + [[item]];
      items := items + {item};
      return true;
    }

    /** `stream`: the new item goes before the tag. */
    method Stream(id: int, data: T) returns (ok: bool)
      requires Valid()
      modifies this
      ensures Valid() && fresh(items - old(items))
      ensures ok == Accepts(old(Streams()), id)
      ensures Streams() == Append(old(Streams()), id, data)
    {
      hide WellFormed, Linked, Grouped, Flat, BlockOk, StreamOf;
      Find(id);
      if id in itemTags { TagFields(blocks[Index(Streams(), id)]); }
      if id !in itemTags || itemTags[id].kind != Uncompleted {
        return false;
      }
      LinkedTag(queue, tagQueue, itemTags, blocks, Index(Streams(), id));
      InsertData(itemTags[id], Index(Streams(), id), data);
      return true;
    }

    /** Puts a new item before an open tag. */
    method InsertData(tag: QueueItem<T>, ghost j: nat, data: T)
      requires Valid() && j < |blocks| && blocks[j] != [] && tag == Tag(blocks[j]) && tag.kind == Uncompleted
      modifies this
      ensures Valid() && fresh(items - old(items))
      ensures Streams() == old(Streams())[j := old(Streams())[j].(data := old(Streams())[j].data + [data])]
    {
      hide WellFormed, Linked, Flat, BlocksOk, StreamsOf;
      LinkedTag(queue, tagQueue, itemTags, blocks, j);
      var item := new QueueItem<T>.Data(data, tag.id);
      LinkedInsert(queue, tagQueue, itemTags, blocks, j, item);
      InsertedKeeps(blocks, items, j, item, data);
      var k := Where(queue, tag);
      queue := queue[..k] + [item] + queue[k..];
      blocks := blocks[j := Inserted(blocks[j], item)];
      items := items + {item};
    }

    /** Changes the fields of a tag; no other stream notices. */
    method WriteTag(tag: QueueItem<T>, ghost j: nat, kind: Kind, polling: bool, err: nat, content: Option<T>)
      requires Valid() && j < |blocks| && blocks[j] != [] && tag == Tag(blocks[j])
      requires !kind.DataItem? && (kind.DeletedTag? || kind.ErrorTag? ==> Streams()[j].data == [])
      requires polling ==> j == 0 || Streams()[j].polling
      modifies items
      ensures Valid()
      ensures Streams() == old(Streams())[j :=
        StreamSpec.Stream(old(Streams())[j].id, polling, StatusOf(kind), err, old(Streams())[j].data, content)]
    {
      hide WellFormed, Linked, BlockOk, StreamOf, Grouped;
      ghost var q, b := Streams(), blocks[j];
      LinkedApart(queue, tagQueue, itemTags, blocks);
      TagElsewhere(blocks, j);
      BlockParts(b);
      tag.kind, tag.polling, tag.err, tag.content := kind, polling, err, content;
      BlockFrom(b, q[j].data);
      UpdateKeeps(q, j, StreamOf(b));
      assert StreamsOf(blocks, items) == q[j := StreamOf(b)];
    }

    /** `end`, whatever the tag's type was. */
    method End(id: int, last: Option<T>) returns (ok: bool)
      requires Valid()
      modifies items
      ensures Valid()
      ensures ok == Has(old(Streams()), id)
      ensures Streams() == Complete(old(Streams()), id, last)
    {
      hide WellFormed, Linked;
      Find(id);
      if id !in itemTags {
        return false;
      }
      ghost var q := Streams();
      ghost var j := Index(q, id);
      LinkedTag(queue, tagQueue, itemTags, blocks, j);
      var tag := itemTags[id];
      TagFields(blocks[j]);
      WriteTag(tag, j, CompletedTag, tag.polling, tag.err, if last.Some? then last else tag.content);
      return true;
    }

    /** Walks back from a tag to the first of its data. */
    method FirstData(last: nat, ghost lo: nat) returns (first: nat)
      requires lo <= last <= |queue|
      requires forall i | lo <= i < last :: queue[i].kind.DataItem?
      requires lo > 0 ==> !queue[lo - 1].kind.DataItem?
      ensures first == lo
    {
      first := last;
      while first > 0 && queue[first - 1].kind.DataItem?
        invariant lo <= first <= last
      {
        first := first - 1;
      }
    }

    /** Removes the data before a tag. */
    method DropData(tag: QueueItem<T>, ghost j: nat)
      requires Valid() && j < |blocks| && blocks[j] != [] && tag == Tag(blocks[j])
      modifies this
      ensures Valid() && items == old(items)
      ensures |blocks| == |old(blocks)| && blocks[j] == [tag]
      ensures Streams() == old(Streams())[j := old(Streams())[j].(data := [])]
    {
      hide WellFormed, Linked, BlocksOk, StreamsOf;
      LinkedTag(queue, tagQueue, itemTags, blocks, j);
      LinkedShrink(queue, tagQueue, itemTags, blocks, j);
      DataBefore(queue, tagQueue, itemTags, blocks, items, j);
      AloneKeeps(blocks, items, j);
      var last := Where(queue, tag);
      var first := FirstData(last, last - (|blocks[j]| - 1));
      queue := queue[..first] + queue[last..];
      blocks := blocks[j := [tag]];
    }

    /** `erase`: the data goes, the tag stays and says why. */
    method Erase(id: int, err: nat) returns (ok: bool)
      requires Valid()
      modifies this, items
      ensures Valid() && items == old(items)
      ensures ok == Has(old(Streams()), id)
      ensures Streams() == StreamSpec.Erase(old(Streams()), id, err)
    {
      hide WellFormed, Linked, BlocksOk, StreamsOf;
      Find(id);
      if id !in itemTags {
        return false;
      }
      ghost var j := Index(Streams(), id);
      LinkedTag(queue, tagQueue, itemTags, blocks, j);
      var tag := itemTags[id];
      DropData(tag, j);
      OneBlock(blocks, items, j);
      if err != 0 {
        WriteTag(tag, j, ErrorTag, tag.polling, err % 0x1_0000, None);
      } else {
        WriteTag(tag, j, DeletedTag, tag.polling, tag.err, None);
      }
      return true;
    }

    /** Removes the first data item of block `j`, where the blocks before are down to their tags. */
    method RemoveData(j: nat)
      requires Valid() && j < |blocks| && |blocks[j]| > 1 && forall i | 0 <= i < j :: |blocks[i]| == 1
      modifies this
      ensures Valid() && items == old(items) && blocks == old(blocks)[j := old(blocks)[j][1..]]
      ensures |queue| == |old(queue)| - 1
      ensures Streams() == old(Streams())[j := old(Streams())[j].(data := old(Streams())[j].data[1..])]
    {
      hide WellFormed, Linked, BlocksOk, StreamsOf;
      LinkedAt(queue, tagQueue, itemTags, blocks, j);
      RemovedKeeps(blocks, items, j);
      queue := queue[..j] + queue[j + 1..];
      blocks := blocks[j := blocks[j][1..]];
    }

    /** The ids of the first and the last stream, zero without one. */
    method Ends() returns (minId: int, maxId: int)
      requires Valid()
      ensures if Streams() == [] then minId == 0 == maxId
        else minId == Streams()[0].id && maxId == Streams()[|Streams()| - 1].id
    {
      hide WellFormed, Linked, BlockOk;
      LinkedEnds(queue, tagQueue, itemTags, blocks, items);
      minId, maxId := 0, 0;
      if tagQueue != [] {
        minId, maxId := tagQueue[0].id, tagQueue[|tagQueue| - 1].id;
      }
    }

    /** One turn of `clear` at item `i`: data is removed, a tag is marked deleted and passed. */
    method ClearItem(i: nat) returns (next: nat)
      requires Valid() && i < |blocks| && i < |queue| && forall k | 0 <= k < i :: |blocks[k]| == 1
      modifies this, items
      ensures Valid() && items == old(items) && |blocks| == |old(blocks)|
      ensures (next == i || next == i + 1) && forall k | 0 <= k < next :: |blocks[k]| == 1
      ensures next == i ==>
        |queue| == |old(queue)| - 1 && Streams() == old(Streams())[i := old(Streams())[i].(data := Streams()[i].data)]
      ensures next == i + 1 ==> queue == old(queue) && Streams() == old(Streams())[i := Erased(old(Streams())[i], 0)]
    {
      hide WellFormed, Linked, BlockOk, StreamOf;
      LinkedAt(queue, tagQueue, itemTags, blocks, i);
      BlockFirst(blocks[i]);
      if queue[i].kind.DataItem? {
        RemoveData(i);
        return i;
      }
      var tag := queue[i];
      TagFields(blocks[i]);
      WriteTag(tag, i, DeletedTag, tag.polling, tag.err, None);
      return i + 1;
    }

    /** `clear`: every stream is erased; the ids of the first and last are reported. */
    method Clear() returns (minId: int, maxId: int)
      requires Valid()
      modifies this, items
      ensures Valid() && items == old(items)
      ensures Streams() == StreamSpec.Clear(old(Streams()))
      ensures if old(Streams()) == [] then minId == 0 == maxId
        else minId == old(Streams())[0].id && maxId == old(Streams())[|old(Streams())| - 1].id
    {
      hide WellFormed, Linked, BlockOk, StreamOf;
      ghost var q := Streams();
      minId, maxId := Ends();
      var i: nat := 0;
      LinkedAt(queue, tagQueue, itemTags, blocks, 0);
      while i < |queue|
        invariant Valid() && items == old(items) && i <= |blocks| == |q|
        invariant if i == |blocks| then |queue| == i else i < |queue|
        invariant forall k | 0 <= k < i :: |blocks[k]| == 1
        invariant forall k | 0 <= k < |q| ::
          Streams()[k] == if k < i then Erased(q[k], 0) else if k == i then q[k].(data := Streams()[k].data) else q[k]
        decreases |queue| - i
      {
        i := ClearItem(i);
        LinkedAt(queue, tagQueue, itemTags, blocks, i);
      }
      assert Streams() == StreamSpec.Clear(q);
    }

    /** `close` */
    method Close()
      requires Valid()
      modifies this
      ensures Valid() && Streams() == [] && items == old(items)
    {
      queue, tagQueue, itemTags, blocks := [], [], map[], [];
    }

    /** `available`: whether the next pop returns something. */
    method Available() returns (more: bool)
      requires Valid()
      ensures more == !Front(Streams()).Empty?
    {
      hide WellFormed, Linked;
      LinkedEnds(queue, tagQueue, itemTags, blocks, items);
      if tagQueue == [] {
        return false;
      }
      LinkedFront(queue, tagQueue, itemTags, blocks);
      var item := tagQueue[0];
      if item.kind == Uncompleted && item.polling {
        return item != queue[0];
      }
      return true;
    }

    /** Takes the front tag out of the list, the tag queue and the map. */
    method DropFront()
      requires Valid() && blocks != [] && |blocks[0]| == 1
      modifies this
      ensures Valid() && items == old(items) && Streams() == old(Streams())[1..]
    {
      hide Linked;
      ghost var q := Streams();
      LinkedFront(queue, tagQueue, itemTags, blocks);
      LinkedPopTag(queue, tagQueue, itemTags, blocks);
      itemTags := itemTags - {tagQueue[0].id};
      tagQueue := tagQueue[1..];
      queue := queue[1..];
      blocks := blocks[1..];
      assert StreamsOf(blocks, items) == q[1..];
    }

    method Pop() returns (p: Popped<T>)
      requires Valid()
      modifies this, items
      ensures Valid() && items == old(items)
      ensures p == Front(old(Streams())) && Streams() == Rest(old(Streams()))
    {
      hide WellFormed, Linked;
      ghost var q := Streams();
      LinkedEnds(queue, tagQueue, itemTags, blocks, items);
      if tagQueue == [] {
        return Empty;
      }
      LinkedFront(queue, tagQueue, itemTags, blocks);
      var item := tagQueue[0];
      if item.kind == Uncompleted || item.kind == CompletedTag {
        if !item.polling {
          WriteTag(item, 0, item.kind, true, item.err, item.content);
          return Start(item.id);
        }
        if item == queue[0] {
          if item.kind == Uncompleted {
            return Empty;
          }
          p := Popped.End(item.id, item.content);
          DropFront();
          return;
        }
        var front := queue[0];
        BlockShrank(blocks[0]);
        p := Popped.Data(item.id, front.content.value);
        RemoveData(0);
      } else if item.kind == DeletedTag {
        p := Removed(item.id);
        DropFront();
      } else {
        p := Error(item.id, item.err);
        DropFront();
      }
    }
  }
}
