/** The flat memory of the index: one byte array holds, element after element, the base-layer link list, the
    vector and the label; the lists of the higher levels of an element lie in a block of their own. */
module FlatMemory {
  import opened LittleEndian
  import opened Wrappers
  import opened HnswGraph

  // ---------------------------------------------------------------- bytes

  /** s with the bytes b written at an offset. */
  function Overwrite(s: seq<byte>, offset: nat, b: seq<byte>): (r: seq<byte>)
    requires offset + |b| <= |s|
    ensures |r| == |s|
    ensures forall i | 0 <= i < |s| :: r[i] == if offset <= i < offset + |b| then b[i - offset] else s[i]
  {
    s[..offset] + b + s[offset + |b|..]
  }

  /** The i-th of the blocks of equal size that memory is cut into. */
  function Block(memory: seq<byte>, size: nat, i: nat): (b: seq<byte>)
    requires (i + 1) * size <= |memory|
    ensures |b| == size
  {
    assert (i + 1) * size == i * size + size;
    memory[i * size..i * size + size]
  }

  lemma BlockOfZeros(n: nat, size: nat, i: nat)
    requires (i + 1) * size <= n
    ensures Block(Zeros(n), size, i) == Zeros(size)
  {
    assert (i + 1) * size == i * size + size;
    var start := i * size;
    assert Zeros(n)[start..start + size] == Zeros(size);
  }

  lemma BlockWithin(size: nat, i: nat, n: nat)
    requires i < n
    ensures (i + 1) * size <= n * size
  {
    assert (n - (i + 1)) * size >= 0;
    assert n * size == (i + 1) * size + (n - (i + 1)) * size;
  }

  /** An address inside a block, and the same place seen from the start of memory. */
  lemma SliceOfBlock(memory: seq<byte>, size: nat, i: nat, lo: nat, hi: nat)
    requires (i + 1) * size <= |memory| && lo <= hi <= size
    ensures i * size + hi <= |memory| && memory[i * size + lo..i * size + hi] == Block(memory, size, i)[lo..hi]
  {
    assert (i + 1) * size == i * size + size;
    var start := i * size;
    SliceOfSlice(memory, start, size, lo, hi);
  }

  lemma SliceOfSlice(memory: seq<byte>, start: nat, size: nat, lo: nat, hi: nat)
    requires start + size <= |memory| && lo <= hi <= size
    ensures memory[start..start + size][lo..hi] == memory[start + lo..start + hi]
  {
    var whole, part := memory[start..start + size], memory[start + lo..start + hi];
    forall k | 0 <= k < hi - lo
      ensures whole[lo..hi][k] == part[k]
    {
      assert whole[lo..hi][k] == whole[lo + k];
    }
  }

  /** Different blocks do not overlap. */
  lemma BlocksApart(size: nat, i: nat, j: nat)
    requires i != j
    ensures i * size + size <= j * size || j * size + size <= i * size
  {
    if i < j {
      BlockWithin(size, i, j);
    } else {
      BlockWithin(size, j, i);
    }
  }

  lemma SliceOverwritten(memory: seq<byte>, size: nat, here: nat, offset: nat, b: seq<byte>, there: nat)
    requires here + size <= |memory| && there + size <= |memory| && offset + |b| <= size
    requires here == there || here + size <= there || there + size <= here
    ensures Overwrite(memory, here + offset, b)[there..there + size] ==
            if here == there then Overwrite(memory[here..here + size], offset, b) else memory[there..there + size]
  {
  }

  /** A write inside one block changes that block only, and there only what is written. */
  lemma BlockOverwritten(memory: seq<byte>, size: nat, i: nat, offset: nat, b: seq<byte>, j: nat)
    requires (i + 1) * size <= |memory| && (j + 1) * size <= |memory| && offset + |b| <= size
    ensures i * size + offset + |b| <= |memory|
    ensures Block(Overwrite(memory, i * size + offset, b), size, j) ==
            if i == j then Overwrite(Block(memory, size, i), offset, b) else Block(memory, size, j)
  {
    hide Overwrite;
    assert (i + 1) * size == i * size + size && (j + 1) * size == j * size + size;
    if i != j {
      BlocksApart(size, i, j);
      assert i * size != j * size || size == 0;
    }
    var here, there := i * size, j * size;
    SliceOverwritten(memory, size, here, offset, b, there);
  }

  // ---------------------------------------------------------------- link lists

  /** A stored link list: its size, then a fixed number of ids, four bytes each. */
  function ListIn(s: seq<byte>, n: nat): LinkList
    requires |s| == 4 * n + 4
  {
    LinkList(Decode(s[..4]), seq(n, i requires 0 <= i < n => Decode(s[4 + 4 * i..8 + 4 * i])))
  }

  lemma SizeWritten(s: seq<byte>, n: nat, size: nat)
    requires |s| == 4 * n + 4
    ensures ListIn(Overwrite(s, 0, Encode(4, size)), n) == ListIn(s, n).(size := size % Range(4))
  {
    var r := Overwrite(s, 0, Encode(4, size));
    RoundTripModulo(4, size);
    assert r[..4] == Encode(4, size);
    forall i | 0 <= i < n
      ensures r[4 + 4 * i..8 + 4 * i] == s[4 + 4 * i..8 + 4 * i]
    {
    }
  }

  lemma LinkWritten(s: seq<byte>, n: nat, idx: nat, v: nat)
    requires |s| == 4 * n + 4 && idx < n && v < Range(4)
    ensures ListIn(Overwrite(s, 4 + 4 * idx, Encode(4, v)), n) == ListIn(s, n).(data := ListIn(s, n).data[idx := v])
  {
    var r := Overwrite(s, 4 + 4 * idx, Encode(4, v));
    RoundTrip(4, v);
    assert r[..4] == s[..4];
    assert r[4 + 4 * idx..8 + 4 * idx] == Encode(4, v);
    forall i | 0 <= i < n && i != idx
      ensures r[4 + 4 * i..8 + 4 * i] == s[4 + 4 * i..8 + 4 * i]
    {
    }
  }

  function BlankList(n: nat): LinkList {
    LinkList(0, seq(n, _ => 0))
  }

  /** Memory set to zero is a blank list. */
  lemma ZerosAreBlank(n: nat)
    ensures ListIn(Zeros(4 * n + 4), n) == BlankList(n)
  {
    var s := Zeros(4 * n + 4);
    ZerosDecode(4);
    assert s[..4] == Zeros(4);
    forall i | 0 <= i < n
      ensures Decode(s[4 + 4 * i..8 + 4 * i]) == 0
    {
      assert s[4 + 4 * i..8 + 4 * i] == Zeros(4);
    }
  }

  /** Lists are stored faithfully: bytes that hold the same list are the same bytes. */
  lemma SameListSameBytes(s: seq<byte>, t: seq<byte>, n: nat)
    requires |s| == |t| == 4 * n + 4 && ListIn(s, n) == ListIn(t, n)
    ensures s == t
  {
    Canonical(s[..4]);
    Canonical(t[..4]);
    assert s[..4] == t[..4];
    forall i | 0 <= i < n
      ensures s[4 + 4 * i..8 + 4 * i] == t[4 + 4 * i..8 + 4 * i]
    {
      assert ListIn(s, n).data[i] == ListIn(t, n).data[i];
      Canonical(s[4 + 4 * i..8 + 4 * i]);
      Canonical(t[4 + 4 * i..8 + 4 * i]);
    }
    forall k | 0 <= k < |s|
      ensures s[k] == t[k]
    {
      if k < 4 {
        assert s[k] == s[..4][k] && t[k] == t[..4][k];
      } else {
        var i := (k - 4) / 4;
        assert s[k] == s[4 + 4 * i..8 + 4 * i][k - 4 - 4 * i] && t[k] == t[4 + 4 * i..8 + 4 * i][k - 4 - 4 * i];
      }
    }
  }

  // ---------------------------------------------------------------- elements

  /** What fixes the layout: maxM_, maxM0_ and the bytes of one vector. */
  datatype Layout = Layout(maxM: nat, maxM0: nat, dataSize: nat) {
    function SizeLinksLevel0(): nat { maxM0 * 4 + 4 }
    function SizeLinksPerElement(): nat { maxM * 4 + 4 }
    function OffsetData(): nat { SizeLinksLevel0() }
    function LabelOffset(): nat { SizeLinksLevel0() + dataSize }
    function SizeDataPerElement(): nat { SizeLinksLevel0() + dataSize + 8 }
    function MemorySize(n: nat): nat { n * SizeDataPerElement() }
    function Slots(level: nat): nat { if level == 0 then maxM0 else maxM }
  }

  /** One element of the index as the rest of the program sees it. */
  datatype Node = Node(lists: seq<LinkList>, vector: seq<byte>, name: nat)

  /** The element stored in a block of the base memory and a block of higher lists. */
  function NodeIn(lay: Layout, block: seq<byte>, upper: seq<byte>, level: nat): (node: Node)
    requires |block| == lay.SizeDataPerElement() && level * lay.SizeLinksPerElement() <= |upper|
    ensures |node.lists| == level + 1
  {
    Node(seq(level + 1, l requires 0 <= l <= level => LevelIn(lay, block, upper, level, l)),
         block[lay.OffsetData()..lay.LabelOffset()],
         Decode(block[lay.LabelOffset()..]))
  }

  function LevelIn(lay: Layout, block: seq<byte>, upper: seq<byte>, level: nat, l: nat): LinkList
    requires |block| == lay.SizeDataPerElement() && level * lay.SizeLinksPerElement() <= |upper| && l <= level
  {
    if l == 0 then ListIn(block[..lay.SizeLinksLevel0()], lay.maxM0)
    else
      BlockWithin(lay.SizeLinksPerElement(), l - 1, level);
      ListIn(Block(upper, lay.SizeLinksPerElement(), l - 1), lay.maxM)
  }

  function BlankNode(lay: Layout, level: nat, vector: seq<byte>, name: nat): Node {
    Node(seq(level + 1, l requires l >= 0 => BlankList(lay.Slots(l))), vector, name)
  }

  /** A write to the list area of a block leaves the vector and the label alone. */
  lemma BaseListWritten(lay: Layout, block: seq<byte>, upper: seq<byte>, level: nat, offset: nat, b: seq<byte>, list: LinkList)
    requires |block| == lay.SizeDataPerElement() && level * lay.SizeLinksPerElement() <= |upper|
    requires offset + |b| <= lay.SizeLinksLevel0()
    requires list == ListIn(Overwrite(block[..lay.SizeLinksLevel0()], offset, b), lay.maxM0)
    ensures var node := NodeIn(lay, block, upper, level);
            NodeIn(lay, Overwrite(block, offset, b), upper, level) == node.(lists := node.lists[0 := list])
  {
    hide ListIn;
    var r := Overwrite(block, offset, b);
    assert r[..lay.SizeLinksLevel0()] == Overwrite(block[..lay.SizeLinksLevel0()], offset, b);
    assert r[lay.OffsetData()..lay.LabelOffset()] == block[lay.OffsetData()..lay.LabelOffset()];
    assert r[lay.LabelOffset()..] == block[lay.LabelOffset()..];
    var node := NodeIn(lay, block, upper, level);
    var written := NodeIn(lay, r, upper, level);
    forall l | 0 <= l <= level
      ensures written.lists[l] == node.lists[0 := list][l]
    {
      assert l > 0 ==> LevelIn(lay, r, upper, level, l) == LevelIn(lay, block, upper, level, l);
    }
  }

  /** A write to the list of one higher level leaves all other lists alone. */
  lemma UpperListWritten(lay: Layout, block: seq<byte>, upper: seq<byte>, level: nat, l: nat, offset: nat, b: seq<byte>, list: LinkList)
    requires |block| == lay.SizeDataPerElement() && level * lay.SizeLinksPerElement() <= |upper| && 0 < l <= level
    requires offset + |b| <= lay.SizeLinksPerElement()
    requires l * lay.SizeLinksPerElement() <= |upper|
    requires list == ListIn(Overwrite(Block(upper, lay.SizeLinksPerElement(), l - 1), offset, b), lay.maxM)
    ensures (l - 1) * lay.SizeLinksPerElement() + offset + |b| <= |upper|
    ensures var node := NodeIn(lay, block, upper, level);
            NodeIn(lay, block, Overwrite(upper, (l - 1) * lay.SizeLinksPerElement() + offset, b), level) == node.(lists := node.lists[l := list])
  {
    hide ListIn, Block, Overwrite;
    var size := lay.SizeLinksPerElement();
    BlockOverwritten(upper, size, l - 1, offset, b, l - 1);
    var r := Overwrite(upper, (l - 1) * size + offset, b);
    var node, written := NodeIn(lay, block, upper, level), NodeIn(lay, block, r, level);
    forall k | 0 <= k <= level
      ensures written.lists[k] == node.lists[l := list][k]
    {
      if k > 0 {
        BlockWithin(size, k - 1, level);
        BlockOverwritten(upper, size, l - 1, offset, b, k - 1);
        assert LevelIn(lay, block, r, level, k) == if k == l then list else LevelIn(lay, block, upper, level, k);
      } else {
        assert LevelIn(lay, block, r, level, 0) == LevelIn(lay, block, upper, level, 0);
      }
    }
  }

  /** A block set to zero, with a label and then a vector copied in, is an element with blank lists. */
  lemma NodeStored(lay: Layout, vector: seq<byte>, name: nat, upper: seq<byte>, level: nat)
    requires |vector| == lay.dataSize && name < Range(8)
    requires level * lay.SizeLinksPerElement() <= |upper| && upper == Zeros(|upper|)
    ensures var labelled := Overwrite(Zeros(lay.SizeDataPerElement()), lay.LabelOffset(), Encode(8, name));
            NodeIn(lay, Overwrite(labelled, lay.OffsetData(), vector), upper, level) == BlankNode(lay, level, vector, name)
  {
    hide ListIn, BlankList;
    var labelled := Overwrite(Zeros(lay.SizeDataPerElement()), lay.LabelOffset(), Encode(8, name));
    var block := Overwrite(labelled, lay.OffsetData(), vector);
    RoundTrip(8, name);
    assert block[lay.LabelOffset()..] == Encode(8, name);
    assert block[lay.OffsetData()..lay.LabelOffset()] == vector;
    var node, blank := NodeIn(lay, block, upper, level), BlankNode(lay, level, vector, name);
    ZerosAreBlank(lay.maxM0);
    assert block[..lay.SizeLinksLevel0()] == Zeros(4 * lay.maxM0 + 4);
    forall l | 0 < l <= level
      ensures node.lists[l] == blank.lists[l]
    {
      BlockWithin(lay.SizeLinksPerElement(), l - 1, level);
      ZerosAreBlank(lay.maxM);
      BlockOfZeros(|upper|, lay.SizeLinksPerElement(), l - 1);
    }
    assert LevelIn(lay, block, upper, level, 0) == blank.lists[0];
  }

  // ---------------------------------------------------------------- labels

  /** The lookup table after adding elements under these labels, in this order. */
  function LookupOf(labels: seq<nat>): map<nat, nat> {
    if labels == [] then map[]
    else LookupOf(labels[..|labels| - 1])[labels[|labels| - 1] := |labels| - 1]
  }

  /** The last writer wins. */
  lemma {:induction false} LookupIsLast(labels: seq<nat>, name: nat)
    ensures name in LookupOf(labels) <==> name in labels
    ensures name in labels ==>
              var c := LookupOf(labels)[name];
              c < |labels| && labels[c] == name && forall d | c < d < |labels| :: labels[d] != name
  {
    if labels != [] {
      var n := |labels| - 1;
      LookupIsLast(labels[..n], name);
      assert labels == labels[..n] + [labels[n]];
    }
  }

  /** The vector most recently added under a label. */
  function LastAdded(added: seq<(nat, seq<byte>)>, name: nat): Option<seq<byte>> {
    if added == [] then None
    else if added[|added| - 1].0 == name then Some(added[|added| - 1].1)
    else LastAdded(added[..|added| - 1], name)
  }

  function LabelsOf(added: seq<(nat, seq<byte>)>): (r: seq<nat>)
    ensures |r| == |added|
  {
    seq(|added|, i requires 0 <= i < |added| => added[i].0)
  }

  lemma {:induction false} LookupFindsLastAdded(added: seq<(nat, seq<byte>)>, name: nat)
    ensures name in LookupOf(LabelsOf(added)) <==> LastAdded(added, name).Some?
    ensures name in LookupOf(LabelsOf(added)) ==>
              var c := LookupOf(LabelsOf(added))[name];
              c < |added| && LastAdded(added, name) == Some(added[c].1)
  {
    if added != [] {
      var n := |added| - 1;
      LookupFindsLastAdded(added[..n], name);
      assert LabelsOf(added)[..n] == LabelsOf(added[..n]);
    }
  }

  // ---------------------------------------------------------------- the index in memory

  ghost predicate Fits(lay: Layout, memory: seq<byte>, uppers: seq<seq<byte>>, levels: seq<nat>) {
    && |memory| == lay.MemorySize(|uppers|) && |levels| <= |uppers|
    && forall c | 0 <= c < |levels| :: levels[c] * lay.SizeLinksPerElement() <= |uppers[c]|
  }

  ghost function NodeAt(lay: Layout, memory: seq<byte>, uppers: seq<seq<byte>>, levels: seq<nat>, c: nat): (node: Node)
    requires Fits(lay, memory, uppers, levels) && c < |levels|
    ensures |node.lists| == levels[c] + 1
  {
    BlockWithin(lay.SizeDataPerElement(), c, |uppers|);
    NodeIn(lay, Block(memory, lay.SizeDataPerElement(), c), uppers[c], levels[c])
  }

  /** The elements stored in the memory, by id. */
  ghost function TableOf(lay: Layout, memory: seq<byte>, uppers: seq<seq<byte>>, levels: seq<nat>): (r: seq<Node>)
    requires Fits(lay, memory, uppers, levels)
    ensures |r| == |levels| && forall c | 0 <= c < |levels| :: r[c] == NodeAt(lay, memory, uppers, levels, c)
  {
    seq(|levels|, c requires 0 <= c < |levels| => NodeAt(lay, memory, uppers, levels, c))
  }

  function WithLink(list: LinkList, idx: nat, v: nat): LinkList
    requires idx < |list.data|
  {
    list.(data := list.data[idx := v])
  }

  /** The first ids of the block replaced. */
  function WithLinks(list: LinkList, ids: seq<nat>): LinkList
    requires |ids| <= |list.data|
  {
    list.(data := ids + list.data[|ids|..])
  }

  function WithList(node: Node, l: nat, list: LinkList): Node
    requires l < |node.lists|
  {
    node.(lists := node.lists[l := list])
  }

  /** The table with one list replaced. */
  function TableWith(table: seq<Node>, c: nat, l: nat, list: LinkList): (r: seq<Node>)
    requires c < |table| && l < |table[c].lists|
    ensures |r| == |table| && |r[c].lists| == |table[c].lists|
    ensures r[c].lists[l] == list
    ensures forall d | 0 <= d < |table| :: r[d].name == table[d].name && r[d].vector == table[d].vector
  {
    table[c := WithList(table[c], l, list)]
  }

  lemma TableWithTwice(table: seq<Node>, c: nat, l: nat, list: LinkList, again: LinkList)
    requires c < |table| && l < |table[c].lists|
    ensures TableWith(table, c, l, table[c].lists[l]) == table
    ensures TableWith(TableWith(table, c, l, list), c, l, again) == TableWith(table, c, l, again)
  {
    var lists := table[c].lists;
    assert lists == lists[l := lists[l]] && lists[l := list][l := again] == lists[l := again];
    assert TableWith(TableWith(table, c, l, list), c, l, again)[c] == TableWith(table, c, l, again)[c];
  }

  lemma NoLinks(list: LinkList)
    ensures WithLinks(list, []) == list
  {
  }

  lemma SizeOfLinks(list: LinkList, ids: seq<nat>, size: nat)
    requires |ids| <= |list.data|
    ensures WithLinks(list, ids).(size := size) == WithLinks(list.(size := size), ids)
  {
  }

  lemma LinksSoFar(list: LinkList, ids: seq<nat>, i: nat)
    requires i < |ids| <= |list.data|
    ensures WithLinks(list, ids[..i]).data[i] == list.data[i]
    ensures WithLink(WithLinks(list, ids[..i]), i, ids[i]) == WithLinks(list, ids[..i + 1])
  {
    var data := list.data;
    assert (ids[..i] + data[i..])[i := ids[i]] == ids[..i + 1] + data[i + 1..];
  }

  /** Where the block of element c starts in the base memory, and the list of level k + 1 in its own block. */
  function BaseAddress(lay: Layout, c: nat): nat {
    c * lay.SizeDataPerElement()
  }

  function UpperAddress(lay: Layout, k: nat): nat {
    k * lay.SizeLinksPerElement()
  }

  /** The bytes of the link list of element c on level l. */
  ghost function ListBytesAt(lay: Layout, memory: seq<byte>, uppers: seq<seq<byte>>, levels: seq<nat>, c: nat, l: nat): (s: seq<byte>)
    requires Fits(lay, memory, uppers, levels) && c < |levels| && l <= levels[c]
    ensures |s| == 4 * lay.Slots(l) + 4
  {
    BlockWithin(lay.SizeDataPerElement(), c, |uppers|);
    if l == 0 then Block(memory, lay.SizeDataPerElement(), c)[..lay.SizeLinksLevel0()]
    else
      BlockWithin(lay.SizeLinksPerElement(), l - 1, levels[c]);
      Block(uppers[c], lay.SizeLinksPerElement(), l - 1)
  }

  lemma ListIsInTable(lay: Layout, memory: seq<byte>, uppers: seq<seq<byte>>, levels: seq<nat>, c: nat, l: nat)
    requires Fits(lay, memory, uppers, levels) && c < |levels| && l <= levels[c]
    ensures TableOf(lay, memory, uppers, levels)[c].lists[l] == ListIn(ListBytesAt(lay, memory, uppers, levels, c, l), lay.Slots(l))
  {
    hide ListIn;
  }

  lemma BaseWord(lay: Layout, memory: seq<byte>, uppers: seq<seq<byte>>, levels: seq<nat>, c: nat, offset: nat)
    requires Fits(lay, memory, uppers, levels) && c < |levels| && offset + 4 <= lay.SizeLinksLevel0()
    ensures BaseAddress(lay, c) + offset + 4 <= |memory|
    ensures memory[BaseAddress(lay, c) + offset..BaseAddress(lay, c) + offset + 4] == ListBytesAt(lay, memory, uppers, levels, c, 0)[offset..offset + 4]
  {
    var size := lay.SizeDataPerElement();
    BlockWithin(size, c, |uppers|);
    SliceOfBlock(memory, size, c, offset, offset + 4);
    assert Block(memory, size, c)[offset..offset + 4] == Block(memory, size, c)[..lay.SizeLinksLevel0()][offset..offset + 4];
  }

  /** Where the vector and the label of an element are read. */
  lemma FieldsInTable(lay: Layout, memory: seq<byte>, uppers: seq<seq<byte>>, levels: seq<nat>, c: nat)
    requires Fits(lay, memory, uppers, levels) && c < |levels|
    ensures BaseAddress(lay, c) + lay.SizeDataPerElement() <= |memory|
    ensures var start, node := BaseAddress(lay, c), TableOf(lay, memory, uppers, levels)[c];
            && node.vector == memory[start + lay.OffsetData()..start + lay.LabelOffset()]
            && node.name == Decode(memory[start + lay.LabelOffset()..start + lay.SizeDataPerElement()])
  {
    hide ListIn, Decode;
    var size := lay.SizeDataPerElement();
    BlockWithin(size, c, |uppers|);
    SliceOfBlock(memory, size, c, lay.OffsetData(), lay.LabelOffset());
    SliceOfBlock(memory, size, c, lay.LabelOffset(), size);
    hide Block;
    assert Block(memory, size, c)[lay.LabelOffset()..] == Block(memory, size, c)[lay.LabelOffset()..size];
  }

  lemma UpperWord(lay: Layout, memory: seq<byte>, uppers: seq<seq<byte>>, levels: seq<nat>, c: nat, k: nat, offset: nat)
    requires Fits(lay, memory, uppers, levels) && c < |levels| && k < levels[c] && offset + 4 <= lay.SizeLinksPerElement()
    ensures UpperAddress(lay, k) + offset + 4 <= |uppers[c]|
    ensures uppers[c][UpperAddress(lay, k) + offset..UpperAddress(lay, k) + offset + 4] == ListBytesAt(lay, memory, uppers, levels, c, k + 1)[offset..offset + 4]
  {
    BlockWithin(lay.SizeLinksPerElement(), k, levels[c]);
    SliceOfBlock(uppers[c], lay.SizeLinksPerElement(), k, offset, offset + 4);
  }

  /** A list lies at a place in memory: the four bytes of its size, then four bytes for every slot. */
  ghost predicate LiesAt(list: LinkList, s: seq<byte>, at: int) {
    && 0 <= at && at + 4 * |list.data| + 4 <= |s| && list.size == Decode(s[at..at + 4])
    && forall j | 0 <= j < |list.data| :: list.data[j] == Decode(s[at + 4 + 4 * j..at + 8 + 4 * j])
  }

  lemma BaseListLies(lay: Layout, memory: seq<byte>, uppers: seq<seq<byte>>, levels: seq<nat>, c: nat)
    requires Fits(lay, memory, uppers, levels) && c < |levels|
    ensures var list := TableOf(lay, memory, uppers, levels)[c].lists[0];
            |list.data| == lay.maxM0 && LiesAt(list, memory, BaseAddress(lay, c))
  {
    var at, s := BaseAddress(lay, c), ListBytesAt(lay, memory, uppers, levels, c, 0);
    ListIsInTable(lay, memory, uppers, levels, c, 0);
    BaseWord(lay, memory, uppers, levels, c, lay.SizeLinksLevel0() - 4);
    hide Fits, TableOf, ListBytesAt, BaseAddress, Decode;
    BaseWord(lay, memory, uppers, levels, c, 0);
    forall j | 0 <= j < lay.maxM0
      ensures Decode(s[4 + 4 * j..8 + 4 * j]) == Decode(memory[at + 4 + 4 * j..at + 8 + 4 * j])
    {
      BaseWord(lay, memory, uppers, levels, c, 4 + 4 * j);
      assert at + (4 + 4 * j) == at + 4 + 4 * j;
    }
  }

  lemma UpperListLies(lay: Layout, memory: seq<byte>, uppers: seq<seq<byte>>, levels: seq<nat>, c: nat, k: nat)
    requires Fits(lay, memory, uppers, levels) && c < |levels| && k < levels[c]
    ensures var list := TableOf(lay, memory, uppers, levels)[c].lists[k + 1];
            |list.data| == lay.maxM && LiesAt(list, uppers[c], UpperAddress(lay, k))
  {
    var at, s := UpperAddress(lay, k), ListBytesAt(lay, memory, uppers, levels, c, k + 1);
    ListIsInTable(lay, memory, uppers, levels, c, k + 1);
    UpperWord(lay, memory, uppers, levels, c, k, lay.SizeLinksPerElement() - 4);
    hide Fits, TableOf, ListBytesAt, UpperAddress, Decode;
    UpperWord(lay, memory, uppers, levels, c, k, 0);
    forall j | 0 <= j < lay.maxM
      ensures Decode(s[4 + 4 * j..8 + 4 * j]) == Decode(uppers[c][at + 4 + 4 * j..at + 8 + 4 * j])
    {
      UpperWord(lay, memory, uppers, levels, c, k, 4 + 4 * j);
      assert at + (4 + 4 * j) == at + 4 + 4 * j;
    }
  }

  /** Which bytes hold element c: its base list, vector and label in the base memory, its higher lists in a
      block of its own. */
  lemma ElementLies(lay: Layout, memory: seq<byte>, uppers: seq<seq<byte>>, levels: seq<nat>, c: nat)
    requires Fits(lay, memory, uppers, levels) && c < |levels|
    ensures var node, size := TableOf(lay, memory, uppers, levels)[c], 4 * lay.maxM0 + lay.dataSize + 12;
            && |memory| == |uppers| * size && c * size + size <= |memory|
            && |node.lists[0].data| == lay.maxM0 && LiesAt(node.lists[0], memory, c * size)
            && node.vector == memory[c * size + 4 * lay.maxM0 + 4..c * size + size - 8]
            && node.name == Decode(memory[c * size + size - 8..c * size + size])
    ensures var node := TableOf(lay, memory, uppers, levels)[c];
            forall l: nat | 1 <= l <= levels[c] :: |node.lists[l].data| == lay.maxM && LiesAt(node.lists[l], uppers[c], (l - 1) * (4 * lay.maxM + 4))
  {
    FieldsInTable(lay, memory, uppers, levels, c);
    BaseListLies(lay, memory, uppers, levels, c);
    hide LiesAt, TableOf, Decode;
    forall l: nat | 1 <= l <= levels[c]
      ensures var node := TableOf(lay, memory, uppers, levels)[c];
              |node.lists[l].data| == lay.maxM && LiesAt(node.lists[l], uppers[c], (l - 1) * (4 * lay.maxM + 4))
    {
      UpperListLies(lay, memory, uppers, levels, c, l - 1);
    }
  }

  /** A write to the base-layer list of element c changes that list of that element. */
  lemma NodeBaseWritten(lay: Layout, memory: seq<byte>, uppers: seq<seq<byte>>, levels: seq<nat>, c: nat, offset: nat, b: seq<byte>)
    requires Fits(lay, memory, uppers, levels) && c < |levels| && offset + |b| <= lay.SizeLinksLevel0()
    ensures BaseAddress(lay, c) + offset + |b| <= |memory|
    ensures var list := ListIn(Overwrite(ListBytesAt(lay, memory, uppers, levels, c, 0), offset, b), lay.maxM0);
            NodeAt(lay, Overwrite(memory, BaseAddress(lay, c) + offset, b), uppers, levels, c) ==
            WithList(NodeAt(lay, memory, uppers, levels, c), 0, list)
  {
    var list := ListIn(Overwrite(ListBytesAt(lay, memory, uppers, levels, c, 0), offset, b), lay.maxM0);
    hide ListIn, Block, Overwrite, NodeIn;
    var size := lay.SizeDataPerElement();
    BlockWithin(size, c, |uppers|);
    BlockOverwritten(memory, size, c, offset, b, c);
    BaseListWritten(lay, Block(memory, size, c), uppers[c], levels[c], offset, b, list);
  }

  /** It leaves every other element alone. */
  lemma OthersBaseKept(lay: Layout, memory: seq<byte>, uppers: seq<seq<byte>>, levels: seq<nat>, c: nat, offset: nat, b: seq<byte>, d: nat)
    requires Fits(lay, memory, uppers, levels) && c < |levels| && offset + |b| <= lay.SizeLinksLevel0()
    requires d < |levels| && d != c
    ensures BaseAddress(lay, c) + offset + |b| <= |memory|
    ensures NodeAt(lay, Overwrite(memory, BaseAddress(lay, c) + offset, b), uppers, levels, d) == NodeAt(lay, memory, uppers, levels, d)
  {
    hide Block, Overwrite, NodeIn;
    var size := lay.SizeDataPerElement();
    BlockWithin(size, c, |uppers|);
    BlockWithin(size, d, |uppers|);
    BlockOverwritten(memory, size, c, offset, b, d);
  }

  lemma TableBaseWritten(lay: Layout, memory: seq<byte>, uppers: seq<seq<byte>>, levels: seq<nat>, c: nat, offset: nat, b: seq<byte>)
    requires Fits(lay, memory, uppers, levels) && c < |levels| && offset + |b| <= lay.SizeLinksLevel0()
    ensures BaseAddress(lay, c) + offset + |b| <= |memory|
    ensures var written := Overwrite(memory, BaseAddress(lay, c) + offset, b);
            var table := TableOf(lay, memory, uppers, levels);
            && Fits(lay, written, uppers, levels)
            && TableOf(lay, written, uppers, levels) ==
               TableWith(table, c, 0, ListIn(Overwrite(ListBytesAt(lay, memory, uppers, levels, c, 0), offset, b), lay.maxM0))
  {
    NodeBaseWritten(lay, memory, uppers, levels, c, offset, b);
    forall d | 0 <= d < |levels| && d != c
      ensures NodeAt(lay, Overwrite(memory, BaseAddress(lay, c) + offset, b), uppers, levels, d) == NodeAt(lay, memory, uppers, levels, d)
    {
      OthersBaseKept(lay, memory, uppers, levels, c, offset, b, d);
    }
    hide NodeAt, WithList, ListBytesAt, ListIn, BaseAddress;
  }

  /** A write to the list of level k + 1 of element c changes that list of that element and nothing else. */
  lemma NodeUpperWritten(lay: Layout, memory: seq<byte>, uppers: seq<seq<byte>>, levels: seq<nat>, c: nat, k: nat, offset: nat, b: seq<byte>)
    requires Fits(lay, memory, uppers, levels) && c < |levels| && k < levels[c] && offset + |b| <= lay.SizeLinksPerElement()
    ensures UpperAddress(lay, k) + offset + |b| <= |uppers[c]|
    ensures var written := uppers[c := Overwrite(uppers[c], UpperAddress(lay, k) + offset, b)];
            var list := ListIn(Overwrite(ListBytesAt(lay, memory, uppers, levels, c, k + 1), offset, b), lay.maxM);
            && Fits(lay, memory, written, levels)
            && NodeAt(lay, memory, written, levels, c) == WithList(NodeAt(lay, memory, uppers, levels, c), k + 1, list)
  {
    var list := ListIn(Overwrite(ListBytesAt(lay, memory, uppers, levels, c, k + 1), offset, b), lay.maxM);
    hide ListIn, Block, Overwrite, NodeIn;
    var size := lay.SizeDataPerElement();
    BlockWithin(size, c, |uppers|);
    BlockWithin(lay.SizeLinksPerElement(), k, levels[c]);
    UpperListWritten(lay, Block(memory, size, c), uppers[c], levels[c], k + 1, offset, b, list);
  }

  lemma TableUpperWritten(lay: Layout, memory: seq<byte>, uppers: seq<seq<byte>>, levels: seq<nat>, c: nat, k: nat, offset: nat, b: seq<byte>)
    requires Fits(lay, memory, uppers, levels) && c < |levels| && k < levels[c] && offset + |b| <= lay.SizeLinksPerElement()
    ensures UpperAddress(lay, k) + offset + |b| <= |uppers[c]|
    ensures var written := uppers[c := Overwrite(uppers[c], UpperAddress(lay, k) + offset, b)];
            var table := TableOf(lay, memory, uppers, levels);
            && Fits(lay, memory, written, levels)
            && TableOf(lay, memory, written, levels) ==
               TableWith(table, c, k + 1, ListIn(Overwrite(ListBytesAt(lay, memory, uppers, levels, c, k + 1), offset, b), lay.maxM))
  {
    NodeUpperWritten(lay, memory, uppers, levels, c, k, offset, b);
    hide ListIn, UpperAddress, Fits, ListBytesAt, WithList, NodeIn, Block, Overwrite;
    var written := uppers[c := Overwrite(uppers[c], UpperAddress(lay, k) + offset, b)];
    forall d | 0 <= d < |levels| && d != c
      ensures NodeAt(lay, memory, written, levels, d) == NodeAt(lay, memory, uppers, levels, d)
    {
    }
  }

  /** The base memory after the block of the next element is set to zero and receives label and vector. */
  ghost function Stored(lay: Layout, memory: seq<byte>, c: nat, vector: seq<byte>, name: nat): (r: seq<byte>)
    requires BaseAddress(lay, c) + lay.SizeDataPerElement() <= |memory| && |vector| == lay.dataSize
    ensures |r| == |memory|
  {
    var start := BaseAddress(lay, c);
    var m1 := Overwrite(memory, start, Zeros(lay.SizeDataPerElement()));
    var m2 := Overwrite(m1, start + lay.LabelOffset(), Encode(8, name));
    Overwrite(m2, start + lay.OffsetData(), vector)
  }

  lemma BlockStored(lay: Layout, memory: seq<byte>, c: nat, vector: seq<byte>, name: nat, n: nat, d: nat)
    requires |memory| == n * lay.SizeDataPerElement() && c < n && d < n && |vector| == lay.dataSize
    ensures BaseAddress(lay, c) + lay.SizeDataPerElement() <= |memory|
    ensures (d + 1) * lay.SizeDataPerElement() <= |memory|
    ensures Block(Stored(lay, memory, c, vector, name), lay.SizeDataPerElement(), d) ==
            if d != c then Block(memory, lay.SizeDataPerElement(), d)
            else Overwrite(Overwrite(Zeros(lay.SizeDataPerElement()), lay.LabelOffset(), Encode(8, name)), lay.OffsetData(), vector)
  {
    hide Block, Overwrite;
    var size := lay.SizeDataPerElement();
    BlockWithin(size, c, n);
    BlockWithin(size, d, n);
    assert (c + 1) * size == c * size + size;
    var m1 := Overwrite(memory, c * size + 0, Zeros(size));
    var m2 := Overwrite(m1, c * size + lay.LabelOffset(), Encode(8, name));
    BlockOverwritten(memory, size, c, 0, Zeros(size), d);
    BlockOverwritten(m1, size, c, lay.LabelOffset(), Encode(8, name), d);
    BlockOverwritten(m2, size, c, lay.OffsetData(), vector, d);
    if d == c { OverwriteAll(Block(memory, size, c), Zeros(size)); }
  }

  /** The next element gets blank lists, and no other element changes. */
  lemma TableStored(lay: Layout, memory: seq<byte>, uppers: seq<seq<byte>>, levels: seq<nat>, vector: seq<byte>, name: nat, level: nat, upper: seq<byte>)
    requires Fits(lay, memory, uppers, levels) && |levels| < |uppers|
    requires |vector| == lay.dataSize && name < Range(8)
    requires level * lay.SizeLinksPerElement() <= |upper| && upper == Zeros(|upper|)
    ensures BaseAddress(lay, |levels|) + lay.SizeDataPerElement() <= |memory|
    ensures var memory', uppers', levels' := Stored(lay, memory, |levels|, vector, name), uppers[|levels| := upper], levels + [level];
            && Fits(lay, memory', uppers', levels')
            && TableOf(lay, memory', uppers', levels') == TableOf(lay, memory, uppers, levels) + [BlankNode(lay, level, vector, name)]
  {
    hide ListIn, Block, Overwrite, NodeIn, BlankNode, Stored, Zeros;
    var c := |levels|;
    BlockStored(lay, memory, c, vector, name, |uppers|, c);
    var memory', uppers', levels' := Stored(lay, memory, c, vector, name), uppers[c := upper], levels + [level];
    NodeStored(lay, vector, name, upper, level);
    assert Fits(lay, memory', uppers', levels');
    assert NodeAt(lay, memory', uppers', levels', c) == BlankNode(lay, level, vector, name);
    forall d | 0 <= d < c
      ensures NodeAt(lay, memory', uppers', levels', d) == NodeAt(lay, memory, uppers, levels, d)
    {
      BlockStored(lay, memory, c, vector, name, |uppers|, d);
    }
    hide NodeAt, Fits;
  }

  lemma OverwriteAll(s: seq<byte>, b: seq<byte>)
    requires |s| == |b|
    ensures Overwrite(s, 0, b) == b
  {
  }

  /** The nodes carry the labels and vectors added, in order; the lookup table leads to the last of each label. */
  ghost predicate Records(table: seq<Node>, added: seq<(nat, seq<byte>)>, lookup: map<nat, nat>) {
    && |added| == |table|
    && (forall c | 0 <= c < |table| :: table[c].name == added[c].0 && table[c].vector == added[c].1)
    && lookup == LookupOf(LabelsOf(added))
  }

  lemma RecordsGrow(lay: Layout, table: seq<Node>, added: seq<(nat, seq<byte>)>, lookup: map<nat, nat>, level: nat, point: seq<byte>, name: nat)
    requires Records(table, added, lookup)
    ensures Records(table + [BlankNode(lay, level, point, name)], added + [(name, point)], lookup[name := |table|])
  {
    assert LabelsOf(added + [(name, point)])[..|added|] == LabelsOf(added);
  }

  /** The errors of the link-writing loops. */
  datatype WriteStatus = Written | NotBlank | MemoryCorruption | NoSuchLevel | BadListSize | SelfLink | ListFull

  class FlatIndex {
    const lay: Layout
    const maxElements: nat
    const memory: array<byte>
    const linkLists: array<seq<byte>>
    const elementLevels: array<nat>
    const m: nat
    const efConstruction: nat
    const mult: nat
    var count: nat
    var labelLookup: map<nat, nat>
    var enterpoint: nat
    var maxlevel: int
    var ef: nat
    ghost var added: seq<(nat, seq<byte>)>

    ghost predicate Shape()
      reads `count, memory, linkLists, elementLevels
    {
      && linkLists.Length == elementLevels.Length == maxElements && count <= maxElements
      && Fits(lay, memory[..], linkLists[..], elementLevels[..count])
    }

    /** The node table the bytes stand for. */
    ghost function Table(): (table: seq<Node>)
      requires Shape()
      reads `count, memory, linkLists, elementLevels
      ensures |table| == count && forall c | 0 <= c < count :: |table[c].lists| == elementLevels[c] + 1
    {
      TableOf(lay, memory[..], linkLists[..], elementLevels[..count])
    }

    /** The stored vectors and labels are those added, in order, and the lookup table leads to the last. */
    ghost predicate Valid()
      reads this, memory, linkLists, elementLevels
    {
      Shape() && Records(Table(), added, labelLookup)
    }

    /** The id -1 of an index without entry point is the largest unsigned int; mult is the bits of a double. */
    constructor (m: nat, efConstruction: nat, mult: nat, dataSize: nat, maxElements: nat)
      ensures Valid() && count == 0 && added == [] && lay == Layout(m, 2 * m, dataSize) && this.maxElements == maxElements
      ensures this.m == m && this.mult == mult && this.efConstruction == (if efConstruction >= m then efConstruction else m)
      ensures enterpoint == Range(4) - 1 && maxlevel == -1 && ef == 10
      ensures fresh(memory) && fresh(linkLists) && fresh(elementLevels)
    {
      this.lay := Layout(m, 2 * m, dataSize);
      this.m, this.mult, this.efConstruction := m, mult, if efConstruction >= m then efConstruction else m;
      this.maxElements := maxElements;
      this.memory := new byte[Layout(m, 2 * m, dataSize).MemorySize(maxElements)];
      this.linkLists := new seq<byte>[maxElements];
      this.elementLevels := new nat[maxElements];
      this.count, this.labelLookup, this.added := 0, map[], [];
      this.enterpoint, this.maxlevel, this.ef := Range(4) - 1, -1, 10;
    }

    /** The memory loadIndex allocates before it reads the elements; the arrays hold anything. */
    constructor Allocated(lay: Layout, m: nat, efConstruction: nat, mult: nat, maxElements: nat)
      ensures this.lay == lay && this.maxElements == maxElements && this.m == m && this.mult == mult && this.efConstruction == efConstruction
      ensures memory.Length == lay.MemorySize(maxElements) && linkLists.Length == elementLevels.Length == maxElements
      ensures count == 0 && labelLookup == map[] && added == [] && ef == 10
      ensures fresh(memory) && fresh(linkLists) && fresh(elementLevels)
    {
      this.lay, this.m, this.mult, this.efConstruction, this.maxElements := lay, m, mult, efConstruction, maxElements;
      this.memory := new byte[lay.MemorySize(maxElements)];
      this.linkLists := new seq<byte>[maxElements];
      this.elementLevels := new nat[maxElements];
      this.count, this.labelLookup, this.added := 0, map[], [];
      this.enterpoint, this.maxlevel, this.ef := 0, -1, 10;
    }

    /** memcpy into the base memory. */
    method CopyTo(offset: nat, b: seq<byte>)
      requires offset + |b| <= memory.Length
      modifies memory
      ensures memory[..] == Overwrite(old(memory[..]), offset, b)
    {
      for i := 0 to |b|
        invariant forall k | 0 <= k < memory.Length :: memory[k] == if offset <= k < offset + i then b[k - offset] else old(memory[k])
      {
        memory[offset + i] := b[i];
      }
    }

    /** The block of an element: zeros, then its label and its vector. */
    method StoreBlock(c: nat, point: seq<byte>, name: nat)
      requires BaseAddress(lay, c) + lay.SizeDataPerElement() <= memory.Length && |point| == lay.dataSize && name < Range(8)
      modifies memory
      ensures memory[..] == Stored(lay, old(memory[..]), c, point, name)
    {
      hide Overwrite, BaseAddress, Range;
      CopyTo(BaseAddress(lay, c), Zeros(lay.SizeDataPerElement()));
      CopyTo(BaseAddress(lay, c) + lay.LabelOffset(), Encode(8, name));
      CopyTo(BaseAddress(lay, c) + lay.OffsetData(), point);
    }

    /** The memory of element c and its level are written; the element becomes the last one if c is its number. */
    method StoreAt(c: nat, point: seq<byte>, name: nat, level: nat)
      requires Shape() && c <= count < maxElements && |point| == lay.dataSize && name < Range(8)
      modifies `count, memory, linkLists, elementLevels
      ensures count == old(count) + 1
      ensures c == old(count) ==> Shape() && Table() == old(Table()) + [BlankNode(lay, level, point, name)]
      ensures forall d | 0 <= d < maxElements && d != c :: elementLevels[d] == old(elementLevels[d])
    {
      hide NodeAt, NodeIn, Block, BlankNode, Stored, TableOf, Fits, BaseAddress, Range;
      ghost var memory0, uppers0, levels0 := memory[..], linkLists[..], elementLevels[..count];
      var upper := Zeros(if level > 0 then lay.SizeLinksPerElement() * level + 1 else 0);
      BlockFits(lay, memory0, uppers0, levels0, c);
      TableStored(lay, memory0, uppers0, levels0, point, name, level, upper);
      count := count + 1;
      elementLevels[c] := level;
      StoreBlock(c, point, name);
      linkLists[c] := upper;
      if c == |levels0| {
        assert elementLevels[..count] == levels0 + [level];
        assert linkLists[..] == uppers0[c := upper];
      }
    }

    /** First part of addPoint: id, level, then the zeroed block with label and vector, then zeroed higher
        lists; None where the index is full. An id is an unsigned int: the 2^32-th element would get id 0. */
    method Store(point: seq<byte>, name: nat, level: nat) returns (cur: Option<nat>)
      requires Valid() && |point| == lay.dataSize && name < Range(8)
      modifies `count, `labelLookup, `added, memory, linkLists, elementLevels
      ensures cur == if old(count) >= maxElements then None else Some(old(count) % Range(4))
      ensures cur == None ==> unchanged(this) && unchanged(memory) && unchanged(linkLists) && unchanged(elementLevels)
      ensures cur.Some? ==> count == old(count) + 1 && labelLookup == old(labelLookup)[name := cur.value]
      ensures cur.Some? && old(count) < Range(4) ==>
                && Valid() && added == old(added) + [(name, point)]
                && Table() == old(Table()) + [BlankNode(lay, level, point, name)]
                && forall c | 0 <= c < cur.value :: elementLevels[c] == old(elementLevels[c])
    {
      RecordsGrow(lay, Table(), added, labelLookup, level, point, name);
      hide Records, NodeAt, BlankNode, TableOf, Fits, Range;
      if count >= maxElements {
        return None;
      }
      var c := count % Range(4);
      if count < Range(4) {
        OwnRemainder(count, Range(4));
      }
      labelLookup := labelLookup[name := c];
      StoreAt(c, point, name, level);
      added := added + [(name, point)];
      cur := Some(c);
    }

    /** The label of an element. */
    method GetExternalLabel(id: nat) returns (name: nat)
      requires Valid() && id < count
      ensures name == added[id].0
    {
      FieldsInTable(lay, memory[..], linkLists[..], elementLevels[..count], id);
      assert Table()[id].name == added[id].0;
      hide BaseAddress, TableOf, Decode;
      var start := BaseAddress(lay, id) + lay.LabelOffset();
      assert memory[start..start + 8] == memory[..][start..start + 8];
      name := Decode(memory[start..start + 8]);
    }

    /** The vector of an element. */
    method GetDataByInternalId(id: nat) returns (point: seq<byte>)
      requires Valid() && id < count
      ensures point == added[id].1
    {
      FieldsInTable(lay, memory[..], linkLists[..], elementLevels[..count], id);
      assert Table()[id].vector == added[id].1;
      hide BaseAddress, TableOf, Decode;
      var start := BaseAddress(lay, id) + lay.OffsetData();
      assert memory[start..start + lay.dataSize] == memory[..][start..start + lay.dataSize];
      point := memory[start..start + lay.dataSize];
    }

    /** getItem: whatever was written in between, the bytes most recently added under the label. */
    method GetItem(name: nat) returns (point: Option<seq<byte>>)
      requires Valid()
      ensures point == LastAdded(added, name)
    {
      LookupFindsLastAdded(added, name);
      if name in labelLookup {
        var bytes := GetDataByInternalId(labelLookup[name]);
        point := Some(bytes);
      } else {
        point := None;
      }
    }

    // -------------------------------------------------------------- link lists

    ghost function ListBytes(c: nat, l: nat): (s: seq<byte>)
      requires Shape() && c < count && l <= elementLevels[c]
      reads `count, memory, linkLists, elementLevels
      ensures |s| == 4 * lay.Slots(l) + 4 && Table()[c].lists[l] == ListIn(s, lay.Slots(l))
    {
      ListIsInTable(lay, memory[..], linkLists[..], elementLevels[..count], c, l);
      ListBytesAt(lay, memory[..], linkLists[..], elementLevels[..count], c, l)
    }

    /** One unsigned int of a link list, found by pointer arithmetic. */
    method ReadWord(c: nat, l: nat, offset: nat) returns (v: nat)
      requires Shape() && c < count && l <= elementLevels[c] && offset + 4 <= 4 * lay.Slots(l) + 4
      ensures v == Decode(ListBytes(c, l)[offset..offset + 4])
    {
      if l == 0 {
        BaseWord(lay, memory[..], linkLists[..], elementLevels[..count], c, offset);
        hide ListIn, ListBytesAt, Decode, BaseAddress, TableOf;
        var start := BaseAddress(lay, c) + offset;
        assert memory[start..start + 4] == memory[..][start..start + 4];
        v := Decode(memory[start..start + 4]);
      } else {
        UpperWord(lay, memory[..], linkLists[..], elementLevels[..count], c, l - 1, offset);
        hide ListIn, ListBytesAt, Decode, UpperAddress, TableOf;
        var start := UpperAddress(lay, l - 1) + offset;
        v := Decode(linkLists[c][start..start + 4]);
      }
    }

    method WriteWord(c: nat, l: nat, offset: nat, v: nat)
      requires Shape() && c < count && l <= elementLevels[c] && offset + 4 <= 4 * lay.Slots(l) + 4
      modifies memory, linkLists
      ensures Shape()
      ensures Table() == TableWith(old(Table()), c, l, ListIn(Overwrite(old(ListBytes(c, l)), offset, Encode(4, v)), lay.Slots(l)))
    {
      hide ListIn, ListBytesAt, BaseAddress, UpperAddress, TableOf, Overwrite, Encode;
      ghost var uppers0 := linkLists[..];
      if l == 0 {
        TableBaseWritten(lay, memory[..], linkLists[..], elementLevels[..count], c, offset, Encode(4, v));
        CopyTo(BaseAddress(lay, c) + offset, Encode(4, v));
      } else {
        TableUpperWritten(lay, memory[..], linkLists[..], elementLevels[..count], c, l - 1, offset, Encode(4, v));
        linkLists[c] := Overwrite(linkLists[c], UpperAddress(lay, l - 1) + offset, Encode(4, v));
        assert linkLists[..] == uppers0[c := linkLists[c]];
      }
    }

    method GetSize(c: nat, l: nat) returns (size: nat)
      requires Shape() && c < count && l <= elementLevels[c]
      ensures size == Table()[c].lists[l].size
    {
      size := ReadWord(c, l, 0);
    }

    method GetLink(c: nat, l: nat, idx: nat) returns (v: nat)
      requires Shape() && c < count && l <= elementLevels[c] && idx < lay.Slots(l)
      ensures v == Table()[c].lists[l].data[idx]
    {
      v := ReadWord(c, l, 4 + 4 * idx);
    }

    /** *ll = size, cut to an unsigned int. */
    method SetSize(c: nat, l: nat, size: nat)
      requires Valid() && c < count && l <= elementLevels[c]
      modifies memory, linkLists
      ensures Valid()
      ensures Table() == TableWith(old(Table()), c, l, old(Table())[c].lists[l].(size := size % Range(4)))
    {
      hide ListIn, TableOf, Fits, Overwrite, LookupOf, Range;
      SizeWritten(ListBytes(c, l), lay.Slots(l), size);
      WriteWord(c, l, 0, size);
    }

    /** data[idx] = v */
    method SetLink(c: nat, l: nat, idx: nat, v: nat)
      requires Valid() && c < count && l <= elementLevels[c] && idx < lay.Slots(l) && v < Range(4)
      modifies memory, linkLists
      ensures Valid()
      ensures Table() == TableWith(old(Table()), c, l, WithLink(old(Table())[c].lists[l], idx, v))
    {
      hide ListIn, TableOf, Fits, Overwrite, LookupOf;
      LinkWritten(ListBytes(c, l), lay.Slots(l), idx, v);
      WriteWord(c, l, 4 + 4 * idx, v);
    }

    /** Slot i of a list is zero and the element to be linked there reaches the level. */
    ghost predicate SlotReady(data: seq<nat>, ids: seq<nat>, l: nat, i: nat)
      requires i < |ids| <= |data| && ids[i] < elementLevels.Length
      reads elementLevels
    {
      data[i] == 0 && l <= elementLevels[ids[i]]
    }

    /** How far a loop gets that checks every slot before it writes it, and the error it stops with. */
    ghost predicate StopsAt(data: seq<nat>, ids: seq<nat>, l: nat, bad: nat, status: WriteStatus)
      requires |ids| <= |data| && forall i | 0 <= i < |ids| :: ids[i] < elementLevels.Length
      reads elementLevels
    {
      && bad <= |ids| && (forall i | 0 <= i < bad :: SlotReady(data, ids, l, i))
      && if bad == |ids| then status == Written
         else !SlotReady(data, ids, l, bad) && status == if data[bad] != 0 then MemoryCorruption else NoSuchLevel
    }

    /** First loop of mutuallyConnectNewElement on the bytes: every slot is checked, then written; bad is the
        first one that fails. */
    method FillBlank(c: nat, l: nat, ids: seq<nat>) returns (status: WriteStatus, ghost bad: nat)
      requires Valid() && c < count && l <= elementLevels[c] && |ids| <= lay.Slots(l)
      requires forall i | 0 <= i < |ids| :: ids[i] < Range(4) && ids[i] < maxElements
      modifies memory, linkLists
      ensures Valid()
      ensures StopsAt(old(Table())[c].lists[l].data, ids, l, bad, status)
      ensures status == Written ==> ids[..bad] == ids
      ensures Table() == TableWith(old(Table()), c, l, WithLinks(old(Table())[c].lists[l], ids[..bad]))
    {
      hide Fits, LookupOf, LabelsOf, TableOf, TableWith, WithLink, WithLinks, Range;
      ghost var before := Table();
      ghost var list := before[c].lists[l];
      TableWithTwice(before, c, l, list, list);
      NoLinks(list);
      for idx := 0 to |ids|
        invariant Valid() && Table() == TableWith(before, c, l, WithLinks(list, ids[..idx]))
        invariant forall i | 0 <= i < idx :: SlotReady(list.data, ids, l, i)
      {
        LinksSoFar(list, ids, idx);
        var v := GetLink(c, l, idx);
        if v != 0 {
          return MemoryCorruption, idx;
        }
        if l > elementLevels[ids[idx]] {
          return NoSuchLevel, idx;
        }
        SetLink(c, l, idx, ids[idx]);
        TableWithTwice(before, c, l, WithLinks(list, ids[..idx]), WithLinks(list, ids[..idx + 1]));
      }
      return Written, |ids|;
    }

    /** The blank list of the new element receives the selected ids. */
    method WriteOwnList(c: nat, l: nat, ids: seq<nat>) returns (status: WriteStatus, ghost bad: nat)
      requires Valid() && c < count && l <= elementLevels[c] && |ids| <= lay.Slots(l)
      requires forall i | 0 <= i < |ids| :: ids[i] < Range(4) && ids[i] < maxElements
      modifies memory, linkLists
      ensures Valid()
      ensures status == NotBlank <==> old(Table())[c].lists[l].size != 0
      ensures status != NotBlank ==> StopsAt(old(Table())[c].lists[l].data, ids, l, bad, status)
      ensures status == Written ==> ids[..bad] == ids
      ensures status == NotBlank ==> unchanged(memory) && unchanged(linkLists)
      ensures status != NotBlank ==>
                Table() == TableWith(old(Table()), c, l, WithLinks(old(Table())[c].lists[l].(size := |ids| % Range(4)), ids[..bad]))
    {
      hide Fits, LookupOf, LabelsOf, TableOf, TableWith, WithLinks, Range;
      ghost var before := Table();
      ghost var list := before[c].lists[l];
      ghost var sized := list.(size := |ids| % Range(4));
      bad := 0;
      var size := GetSize(c, l);
      if size != 0 {
        return NotBlank, bad;
      }
      SetSize(c, l, |ids|);
      status, bad := FillBlank(c, l, ids);
      TableWithTwice(before, c, l, sized, WithLinks(sized, ids[..bad]));
    }

    /** What the list of node c does when v asks to be linked: the checks, then v goes behind the last id, or
        the list is full and has to be pruned. */
    method AppendLink(c: nat, l: nat, v: nat) returns (status: WriteStatus)
      requires Valid() && c < count && l <= elementLevels[c] && v < Range(4)
      modifies memory, linkLists
      ensures Valid()
      ensures var list := old(Table())[c].lists[l];
              status == if list.size > lay.Slots(l) then BadListSize
                        else if c == v then SelfLink
                        else if list.size < lay.Slots(l) then Written
                        else ListFull
      ensures status != Written ==> Table() == old(Table())
      ensures var list := old(Table())[c].lists[l];
              status == Written ==>
                && list.size < |list.data|
                && Table() == TableWith(old(Table()), c, l, LinkList((list.size + 1) % Range(4), list.data[list.size := v]))
    {
      hide Fits, LookupOf, TableOf, TableWith, Range;
      ghost var before := Table();
      ghost var list := before[c].lists[l];
      var size := GetSize(c, l);
      if size > lay.Slots(l) {
        return BadListSize;
      }
      if c == v {
        return SelfLink;
      }
      if l > elementLevels[c] {
        return NoSuchLevel;
      }
      if size == lay.Slots(l) {
        return ListFull;
      }
      SetLink(c, l, size, v);
      SetSize(c, l, size + 1);
      TableWithTwice(before, c, l, WithLink(list, size, v), LinkList((list.size + 1) % Range(4), list.data[list.size := v]));
      status := Written;
    }

    /** A full list after pruning: the kept ids from the front, then the new size; what lies behind them stays. */
    method RewriteList(c: nat, l: nat, ids: seq<nat>)
      requires Valid() && c < count && l <= elementLevels[c] && |ids| <= lay.Slots(l)
      requires forall i | 0 <= i < |ids| :: ids[i] < Range(4)
      modifies memory, linkLists
      ensures Valid()
      ensures Table() == TableWith(old(Table()), c, l, WithLinks(old(Table())[c].lists[l].(size := |ids| % Range(4)), ids))
    {
      hide Fits, LookupOf, TableOf, TableWith, WithLink, WithLinks, Range;
      ghost var before := Table();
      ghost var list := before[c].lists[l];
      TableWithTwice(before, c, l, list, list);
      NoLinks(list);
      for indx := 0 to |ids|
        invariant Valid() && Table() == TableWith(before, c, l, WithLinks(list, ids[..indx]))
      {
        SetLink(c, l, indx, ids[indx]);
        TableWithTwice(before, c, l, WithLinks(list, ids[..indx]), WithLinks(list, ids[..indx + 1]));
        LinksSoFar(list, ids, indx);
      }
      assert ids[..|ids|] == ids;
      SetSize(c, l, |ids|);
      TableWithTwice(before, c, l, WithLinks(list, ids), WithLinks(list.(size := |ids| % Range(4)), ids));
      SizeOfLinks(list, ids, |ids| % Range(4));
    }
  }

  lemma OwnRemainder(n: nat, m: nat)
    requires n < m
    ensures n % m == n
  {
  }

  /** The block of any element lies within the memory. */
  lemma BlockFits(lay: Layout, memory: seq<byte>, uppers: seq<seq<byte>>, levels: seq<nat>, c: nat)
    requires Fits(lay, memory, uppers, levels) && c < |uppers|
    ensures BaseAddress(lay, c) + lay.SizeDataPerElement() <= |memory|
  {
    BlockWithin(lay.SizeDataPerElement(), c, |uppers|);
    assert (c + 1) * lay.SizeDataPerElement() == c * lay.SizeDataPerElement() + lay.SizeDataPerElement();
  }
}
