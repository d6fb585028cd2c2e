/** The stream reassembler itself: a list of pending substrings, a map into that list, a set of
    free intervals and two counters, all updated in place. */
module StreamReassemblers {
  import opened Bytes
  import opened ByteStreams
  import opened FreeIntervals
  import opened Reassembly

  /** A node of the list; its handle is what an iterator to it holds on to. */
  datatype Node = Node(handle: nat, entry: Entry)

  function Entries(nodes: seq<Node>): (es: seq<Entry>)
    ensures |es| == |nodes| && forall k :: 0 <= k < |es| ==> es[k] == nodes[k].entry
  {
    seq(|nodes|, k requires 0 <= k < |nodes| => nodes[k].entry)
  }

  /** Some node holds this index. */
  ghost predicate Listed(nodes: seq<Node>, i: nat) {
    exists k :: 0 <= k < |nodes| && nodes[k].entry.index == i
  }

  /** The map leads from the index of each node to that node, and the handles are all different. */
  ghost predicate Indexes(existed: map<nat, nat>, nodes: seq<Node>, nextHandle: nat) {
    && (forall k :: 0 <= k < |nodes| ==>
          nodes[k].entry.index in existed && existed[nodes[k].entry.index] == nodes[k].handle < nextHandle)
    && (forall i :: i in existed ==> Listed(nodes, i))
    && (forall j, k :: 0 <= j < k < |nodes| ==> nodes[j].handle != nodes[k].handle)
  }

  /** Insertion walks past everything with a smaller index. */
  lemma {:induction false} InsertPast(a: seq<Entry>, b: seq<Entry>, e: Entry)
    requires forall k :: 0 <= k < |a| ==> a[k].index < e.index
    ensures InsertEntry(a + b, e) == a + InsertEntry(b, e)
  {
    if a == [] {
      assert a + b == b;
    } else {
      InsertPast(a[1..], b, e);
      assert (a + b)[1..] == a[1..] + b;
      assert a + InsertEntry(b, e) == [a[0]] + (a[1..] + InsertEntry(b, e));
    }
  }

  lemma SortedBelow(es: seq<Entry>, pos: nat, index: nat)
    requires Sorted(es) && pos <= |es|
    requires pos > 0 ==> es[pos - 1].index < index
    ensures es == es[..pos] + es[pos..]
    ensures forall k :: 0 <= k < |es[..pos]| ==> es[..pos][k].index < index
  {
  }

  lemma InsertBefore(es: seq<Entry>, e: Entry, pos: nat)
    requires Sorted(es) && pos <= |es|
    requires pos > 0 ==> es[pos - 1].index < e.index
    requires pos < |es| ==> e.index < es[pos].index
    ensures InsertEntry(es, e) == es[..pos] + [e] + es[pos..]
  {
    hide Sorted;
    SortedBelow(es, pos, e.index);
    InsertPast(es[..pos], es[pos..], e);
    assert es[..pos] + ([e] + es[pos..]) == es[..pos] + [e] + es[pos..];
  }

  lemma InsertAt(es: seq<Entry>, e: Entry, pos: nat)
    requires Sorted(es) && pos < |es| && es[pos].index == e.index
    ensures InsertEntry(es, e) == if |e.data| > |es[pos].data| then es[pos := e] else es
  {
    hide InsertEntry;
    SortedBelow(es, pos, e.index);
    InsertPast(es[..pos], es[pos..], e);
    InsertFirst(es[pos..], e);
    ReplaceAt(es, e, pos);
  }

  lemma InsertFirst(es: seq<Entry>, e: Entry)
    requires es != [] && es[0].index == e.index
    ensures InsertEntry(es, e) == if |e.data| > |es[0].data| then [e] + es[1..] else es
  {
  }

  lemma ReplaceAt(es: seq<Entry>, e: Entry, pos: nat)
    requires pos < |es|
    ensures es[..pos] + ([e] + es[pos..][1..]) == es[pos := e]
  {
  }

  function InsertNode(nodes: seq<Node>, pos: nat, n: Node): (nodes': seq<Node>)
    requires pos <= |nodes|
    ensures |nodes'| == |nodes| + 1
    ensures forall k :: 0 <= k < |nodes'| ==>
              nodes'[k] == if k < pos then nodes[k] else if k == pos then n else nodes[k - 1]
  {
    nodes[..pos] + [n] + nodes[pos..]
  }

  lemma EntriesInsert(nodes: seq<Node>, pos: nat, n: Node)
    requires pos <= |nodes|
    ensures Entries(InsertNode(nodes, pos, n)) == Entries(nodes)[..pos] + [n.entry] + Entries(nodes)[pos..]
  {
  }

  lemma InsertedInMap(existed: map<nat, nat>, nodes: seq<Node>, next: nat, pos: nat, e: Entry, k: nat)
    requires Indexes(existed, nodes, next) && pos <= |nodes| && e.index !in existed && k <= |nodes|
    ensures var n, existed' := InsertNode(nodes, pos, Node(next, e))[k], existed[e.index := next];
            n.entry.index in existed' && existed'[n.entry.index] == n.handle < next + 1
  {
  }

  lemma InsertedApart(existed: map<nat, nat>, nodes: seq<Node>, next: nat, pos: nat, e: Entry, j: nat, k: nat)
    requires Indexes(existed, nodes, next) && pos <= |nodes| && j < k <= |nodes|
    ensures var nodes' := InsertNode(nodes, pos, Node(next, e)); nodes'[j].handle != nodes'[k].handle
  {
  }

  lemma InsertedFound(existed: map<nat, nat>, nodes: seq<Node>, next: nat, pos: nat, e: Entry, i: nat)
    requires Indexes(existed, nodes, next) && pos <= |nodes| && i in existed[e.index := next]
    ensures Listed(InsertNode(nodes, pos, Node(next, e)), i)
  {
    var nodes' := InsertNode(nodes, pos, Node(next, e));
    if i == e.index {
      assert nodes'[pos].entry.index == i;
    } else {
      assert Listed(nodes, i);
      var k :| 0 <= k < |nodes| && nodes[k].entry.index == i;
      assert nodes'[if k < pos then k else k + 1] == nodes[k];
    }
  }

  /** A new node under a new index keeps map and list in step. */
  lemma IndexesInsert(existed: map<nat, nat>, nodes: seq<Node>, next: nat, pos: nat, e: Entry)
    requires Indexes(existed, nodes, next) && pos <= |nodes| && e.index !in existed
    ensures Indexes(existed[e.index := next], InsertNode(nodes, pos, Node(next, e)), next + 1)
  {
    var nodes' := InsertNode(nodes, pos, Node(next, e));
    var existed' := existed[e.index := next];
    assert Indexes(existed', nodes', next + 1) by {
      hide InsertNode, Listed;
      assert |nodes'| == |nodes| + 1 by { InsertedSize(nodes, pos, Node(next, e)); }
      forall k | 0 <= k < |nodes'|
        ensures nodes'[k].entry.index in existed' && existed'[nodes'[k].entry.index] == nodes'[k].handle < next + 1
      {
        InsertedInMap(existed, nodes, next, pos, e, k);
      }
      forall j, k | 0 <= j < k < |nodes'|
        ensures nodes'[j].handle != nodes'[k].handle
      {
        InsertedApart(existed, nodes, next, pos, e, j, k);
      }
      forall i | i in existed'
        ensures Listed(nodes', i)
      {
        InsertedFound(existed, nodes, next, pos, e, i);
      }
    }
  }

  lemma InsertedSize(nodes: seq<Node>, pos: nat, n: Node)
    requires pos <= |nodes|
    ensures |InsertNode(nodes, pos, n)| == |nodes| + 1
  {
  }

  /** Replacing the substring of a node keeps map and list in step. */
  lemma IndexesReplace(existed: map<nat, nat>, nodes: seq<Node>, next: nat, pos: nat, e: Entry)
    requires Indexes(existed, nodes, next) && pos < |nodes| && nodes[pos].entry.index == e.index
    ensures Indexes(existed, nodes[pos := nodes[pos].(entry := e)], next)
  {
    var nodes' := nodes[pos := nodes[pos].(entry := e)];
    forall i | i in existed
      ensures Listed(nodes', i)
    {
      assert Listed(nodes, i);
      var k :| 0 <= k < |nodes| && nodes[k].entry.index == i;
      assert nodes'[k].entry.index == i;
    }
  }

  lemma PoppedInMap(existed: map<nat, nat>, nodes: seq<Node>, next: nat, k: nat)
    requires Indexes(existed, nodes, next) && Sorted(Entries(nodes)) && 0 < k < |nodes|
    ensures var existed' := existed - {nodes[0].entry.index};
            nodes[k].entry.index in existed' && existed'[nodes[k].entry.index] == nodes[k].handle < next
  {
    assert Entries(nodes)[0].index < Entries(nodes)[k].index;
  }

  lemma PoppedFound(nodes: seq<Node>, i: nat)
    requires nodes != [] && Listed(nodes, i) && i != nodes[0].entry.index
    ensures Listed(nodes[1..], i)
  {
    var k :| 0 <= k < |nodes| && nodes[k].entry.index == i;
    assert nodes[1..][k - 1] == nodes[k];
  }

  /** Removing the first node and its index keeps map and list in step. */
  lemma IndexesPop(existed: map<nat, nat>, nodes: seq<Node>, next: nat)
    requires Indexes(existed, nodes, next) && nodes != [] && Sorted(Entries(nodes))
    ensures Indexes(existed - {nodes[0].entry.index}, nodes[1..], next)
  {
    hide Listed, Sorted, Entries;
    var existed', nodes' := existed - {nodes[0].entry.index}, nodes[1..];
    forall k | 0 <= k < |nodes'|
      ensures nodes'[k].entry.index in existed' && existed'[nodes'[k].entry.index] == nodes'[k].handle < next
    {
      PoppedInMap(existed, nodes, next, k + 1);
    }
    forall i | i in existed'
      ensures Listed(nodes', i)
    {
      PoppedFound(nodes, i);
    }
  }

  /** The least key not below an index, if any. */
  method KeyLowerBound(keys: set<nat>, index: nat) returns (it: Option<nat>)
    ensures it.None? ==> forall k :: k in keys ==> k < index
    ensures it.Some? ==> it.value in keys && index <= it.value && forall k :: k in keys && index <= k ==> it.value <= k
  {
    it := None;
    var rest := keys;
    while rest != {}
      invariant rest <= keys
      invariant it.None? ==> forall k :: k in keys && k !in rest ==> k < index
      invariant it.Some? ==> it.value in keys && index <= it.value
                             && forall k :: k in keys && k !in rest && index <= k ==> it.value <= k
      decreases rest
    {
      var k :| k in rest;
      rest := rest - {k};
      if index <= k && (it.None? || k < it.value) {
        it := Some(k);
      }
    }
  }

  /** A node with this index belongs at position pos of the sorted list. */
  predicate Place(nodes: seq<Node>, index: nat, pos: nat) {
    && pos <= |nodes|
    && (pos > 0 ==> nodes[pos - 1].entry.index < index)
    && (pos < |nodes| ==> index < nodes[pos].entry.index)
  }

  lemma BackPlace(existed: map<nat, nat>, nodes: seq<Node>, next: nat, index: nat)
    requires Indexes(existed, nodes, next) && forall k :: k in existed.Keys ==> k < index
    ensures Place(nodes, index, |nodes|) && index !in existed
  {
  }

  lemma FrontPlace(existed: map<nat, nat>, nodes: seq<Node>, next: nat, index: nat, pos: nat)
    requires Indexes(existed, nodes, next) && Sorted(Entries(nodes)) && pos < |nodes|
    requires index < nodes[pos].entry.index
    requires forall k :: k in existed.Keys && index <= k ==> nodes[pos].entry.index <= k
    ensures Place(nodes, index, pos) && index !in existed
  {
    if pos > 0 {
      assert Entries(nodes)[pos - 1].index < Entries(nodes)[pos].index;
      assert nodes[pos - 1].entry.index in existed.Keys;
    }
  }

  class StreamReassembler {
    const output: ByteStream
    const capacity: nat
    var assembledBytes: nat
    var storedBytes: nat
    var strToAssemble: seq<Node>
    var existed: map<nat, nat>
    var nextHandle: nat
    var eof: bool
    var usedByte: set<Interval>
    ghost var accepted: set<nat>

    /** The abstract value, also inside the assembly loop. */
    ghost function Shape(): (m: Reassembler)
      reads this, output
      requires output.Valid()
      ensures m.Valid()
    {
      Reassembler(output.View(), assembledBytes, accepted, Entries(strToAssemble), eof)
    }

    /** The parts of the representation agree with each other and with the accepted set. */
    ghost predicate Agrees()
      reads this, output
    {
      && output.Valid() && capacity == output.capacity
      && storedBytes == |accepted|
      && Complements(usedByte, accepted)
      && Indexes(existed, strToAssemble, nextHandle)
    }

    ghost predicate Valid()
      reads this, output
    {
      Agrees() && Inv(Shape())
    }

    ghost function View(): (m: Reassembler)
      reads this, output
      requires Valid()
      ensures m.Valid()
    {
      Shape()
    }

    constructor (capacity: nat)
      ensures Valid() && fresh(output)
      ensures View() == NewReassembler(capacity)
    {
      output := new ByteStream(capacity);
      this.capacity := capacity;
      assembledBytes, storedBytes := 0, 0;
      strToAssemble, existed, nextHandle := [], map[], 0;
      eof := false;
      usedByte := {Interval(0, SIZE_MAX)};
      accepted := {};
      new;
      assert Interval(0, SIZE_MAX) in usedByte;
    }

    function UnassembledBytes(): (n: int)
      reads this, output
      ensures Valid() ==> n == View().UnassembledBytes() == |accepted - Range(0, assembledBytes)|
    {
      AssembledWhenValid();
      storedBytes - assembledBytes
    }

    lemma AssembledWhenValid()
      ensures Valid() ==> |accepted| - assembledBytes == |accepted - Range(0, assembledBytes)|
    {
      if Valid() {
        AssembledIsLeastMissing(Shape());
      }
    }

    predicate Empty()
      reads this
    {
      storedBytes == assembledBytes && eof
    }

    /** Note how [l, r) cuts into one free interval, and count the indices it takes from it. */
    method RemoveSegment(it: Interval, l: nat, r: nat, toErase: seq<Interval>, toInsert: seq<Interval>)
      returns (erase: seq<Interval>, insert: seq<Interval>)
      requires l <= r && it.first < it.second
      modifies `storedBytes
      ensures it.Meets(l, r) ==>
                && erase == toErase + [it]
                && insert == toInsert + LeftPiece(it, l) + RightPiece(it, r)
                && storedBytes == old(storedBytes) + |Range(Max(l, it.first), Min(r, it.second))|
      ensures !it.Meets(l, r) ==> erase == toErase && insert == toInsert && storedBytes == old(storedBytes)
    {
      erase, insert := toErase, toInsert;
      if l >= it.second || r <= it.first { return; }
      RangeSize(Max(l, it.first), Min(r, it.second));
      erase := erase + [it];
      if l >= it.first {
        storedBytes := storedBytes + (Min(r, it.second) - l);
        if l > it.first {
          insert := insert + [Interval(it.first, l)];
        }
        if it.second > r {
          insert := insert + [Interval(r, it.second)];
        }
      } else {
        storedBytes := storedBytes + (Min(r, it.second) - it.first);
        if it.second > r {
          insert := insert + [Interval(r, it.second)];
        }
      }
    }

    /** Walk over the free intervals that [l, r) may meet, noting what to erase and to insert. */
    method WalkIntervals(l: nat, r: nat)
      returns (erase: seq<Interval>, insert: seq<Interval>, ghost done: set<Interval>)
      requires l <= r && Disjoint(usedByte) && storedBytes == |accepted|
      modifies `storedBytes
      ensures done <= usedByte && Walked(done, l, r, erase, insert)
      ensures forall p :: p in usedByte && p.Meets(l, r) ==> p in done
      ensures storedBytes == |accepted| + |Taken(done, l, r)|
    {
      hide Walked, Taken, Disjoint, LeftPiece, RightPiece;
      erase, insert, done := [], [], {};
      WalkNone(l, r);
      var itL, itR := Bounds(usedByte, l, r);
      ghost var skipped := Before(usedByte, itL);
      while itL.Some?
        invariant itL.Some? ==> itL.value in usedByte
        invariant done + skipped == Before(usedByte, itL)
        invariant done <= usedByte && Walked(done, l, r, erase, insert)
        invariant storedBytes == |accepted| + |Taken(done, l, r)|
        decreases usedByte - done
      {
        var it := itL.value;
        WalkOne(done, it, l, r, erase, insert);
        DisjointPart(usedByte, done + {it});
        TakeOne(done, it, l, r);
        erase, insert := RemoveSegment(it, l, r, erase, insert);
        done := done + {it};
        if itL == itR {
          assert forall p :: p in usedByte && p.Meets(l, r) ==> p.Below(it) && p in Before(usedByte, itL);
          return;
        }
        itL := First(After(usedByte, it));
        BeforeNext(usedByte, it, itL);
      }
      assert done + skipped == usedByte;
    }

    /** Replace the noted intervals. */
    method ReplaceIntervals(erase: seq<Interval>, insert: seq<Interval>)
      modifies `usedByte
      ensures usedByte == old(usedByte) - (set p | p in erase) + (set q | q in insert)
    {
      var k := 0;
      while k < |erase|
        invariant 0 <= k <= |erase|
        invariant usedByte == old(usedByte) - (set p | p in erase[..k])
      {
        usedByte := usedByte - {erase[k]};
        k := k + 1;
      }
      assert erase[..k] == erase;
      k := 0;
      while k < |insert|
        invariant 0 <= k <= |insert|
        invariant usedByte == old(usedByte) - (set p | p in erase) + (set q | q in insert[..k])
      {
        usedByte := usedByte + {insert[k]};
        k := k + 1;
      }
      assert insert[..k] == insert;
    }

    /** Claim the indices of [l, r): the free intervals lose them, and the new ones are counted. */
    method ClaimRange(l: nat, r: nat)
      requires l <= r <= SIZE_MAX
      requires Complements(usedByte, accepted) && storedBytes == |accepted|
      modifies `usedByte, `storedBytes
      ensures Complements(usedByte, accepted + Range(l, r))
      ensures storedBytes == |accepted + Range(l, r)|
    {
      ghost var free := usedByte;
      var erase, insert, done := WalkIntervals(l, r);
      WalkDone(free, done, accepted, l, r, erase, insert);
      ReplaceIntervals(erase, insert);
      CarveComplements(free, accepted, l, r);
    }

    /** Where the node behind an iterator stands in the list. */
    method Locate(key: nat) returns (pos: nat)
      requires Indexes(existed, strToAssemble, nextHandle) && key in existed
      ensures pos < |strToAssemble| && strToAssemble[pos].entry.index == key
    {
      pos := 0;
      while strToAssemble[pos].handle != existed[key]
        invariant pos < |strToAssemble|
        invariant exists k :: pos <= k < |strToAssemble| && strToAssemble[k].entry.index == key
        decreases |strToAssemble| - pos
      {
        pos := pos + 1;
      }
      ghost var k :| pos <= k < |strToAssemble| && strToAssemble[k].entry.index == key;
      assert strToAssemble[k].handle == existed[key];
    }

    /** File a substring in the list, in the order of the indices. */
    method StoreSubstring(tmp: seq<byte>, index: nat)
      requires Indexes(existed, strToAssemble, nextHandle) && Sorted(Entries(strToAssemble))
      modifies `strToAssemble, `existed, `nextHandle
      ensures Indexes(existed, strToAssemble, nextHandle)
      ensures Entries(strToAssemble) == InsertEntry(Entries(old(strToAssemble)), Entry(tmp, index))
    {
      hide Indexes, Sorted;
      var e := Entry(tmp, index);
      ghost var es := Entries(strToAssemble);
      var it := KeyLowerBound(existed.Keys, index);
      if it.None? {
        BackPlace(existed, strToAssemble, nextHandle, index);
        InsertNew(|strToAssemble|, e);
      } else {
        var pos := Locate(it.value);
        if it.value == index {
          InsertAt(es, e, pos);
          if |tmp| > |strToAssemble[pos].entry.data| {
            IndexesReplace(existed, strToAssemble, nextHandle, pos, e);
            strToAssemble := strToAssemble[pos := strToAssemble[pos].(entry := e)];
          }
        } else {
          FrontPlace(existed, strToAssemble, nextHandle, index, pos);
          InsertNew(pos, e);
        }
      }
    }

    /** Put a new node at a position that keeps the list sorted. */
    method InsertNew(pos: nat, e: Entry)
      requires Indexes(existed, strToAssemble, nextHandle) && Sorted(Entries(strToAssemble))
      requires Place(strToAssemble, e.index, pos) && e.index !in existed
      modifies `strToAssemble, `existed, `nextHandle
      ensures Indexes(existed, strToAssemble, nextHandle)
      ensures Entries(strToAssemble) == InsertEntry(Entries(old(strToAssemble)), e)
    {
      hide Indexes, Sorted;
      InsertBefore(Entries(strToAssemble), e, pos);
      EntriesInsert(strToAssemble, pos, Node(nextHandle, e));
      IndexesInsert(existed, strToAssemble, nextHandle, pos, e);
      existed := existed[e.index := nextHandle];
      strToAssemble := InsertNode(strToAssemble, pos, Node(nextHandle, e));
      nextHandle := nextHandle + 1;
    }

    /** Move the first pending substring to the output. */
    method AssembleOne()
      requires output.Valid() && Loose(Shape()) && Indexes(existed, strToAssemble, nextHandle)
      requires strToAssemble != [] && strToAssemble[0].entry.index <= assembledBytes
      modifies `strToAssemble, `existed, `assembledBytes, output
      ensures output.Valid() && Shape() == old(Shape()).DrainOne()
      ensures strToAssemble == old(strToAssemble)[1..]
      ensures Indexes(existed, strToAssemble, nextHandle)
    {
      hide Indexes, Span;
      IndexesPop(existed, strToAssemble, nextHandle);
      var e := strToAssemble[0].entry;
      if e.index + |e.data| > assembledBytes {
        var n := output.Write(e.data[assembledBytes - e.index..]);
        assembledBytes := e.index + |e.data|;
      }
      existed := existed - {e.index};
      strToAssemble := strToAssemble[1..];
    }

    /** Move everything that has become contiguous to the output. */
    method Assemble()
      requires Agrees() && Loose(Shape())
      modifies `strToAssemble, `existed, `assembledBytes, output
      ensures Agrees() && Shape() == old(Shape()).Drain()
    {
      hide Indexes, Loose, Complements, Reassembler.DrainOne;
      while strToAssemble != [] && strToAssemble[0].entry.index <= assembledBytes
        invariant Agrees() && Loose(Shape())
        invariant Shape().Drain() == old(Shape()).Drain()
        decreases |strToAssemble|
      {
        DrainOneKeeps(Shape());
        AssembleOne();
      }
    }

    method CloseIfEmpty()
      requires Agrees()
      modifies output
      ensures Agrees() && Shape() == old(Shape()).CloseIfEmpty()
    {
      hide Indexes, Complements;
      if Empty() {
        output.EndInput();
      }
    }

    /** Claim the range of a substring and store it. */
    method TakeIn(tmp: seq<byte>, index: nat)
      requires Agrees() && Loose(Shape()) && index + |tmp| <= Shape().Limit() < TWO_64
      modifies this
      ensures Agrees() && Shape() == old(Shape()).Store(tmp, index)
    {
      hide Indexes, Complements, Span, InsertEntry;
      ClaimRange(index, index + |tmp|);
      StoreSubstring(tmp, index);
      accepted := accepted + Range(index, index + |tmp|);
    }

    /** The part of push_substring that handles a substring reaching beyond the assembled prefix. */
    method Accept(tmp: seq<byte>, index: nat)
      requires Agrees() && Loose(Shape()) && index + |tmp| <= Shape().Limit() < TWO_64
      modifies this, output
      ensures Agrees() && Shape() == old(Shape()).Store(tmp, index).Drain().CloseIfEmpty()
    {
      hide Indexes, Complements, Loose, Reassembler.Store, Reassembler.Drain, Reassembler.CloseIfEmpty;
      StoreKeeps(Shape(), tmp, index);
      TakeIn(tmp, index);
      Assemble();
      CloseIfEmpty();
    }

    /** Accept a substring of the stream, possibly out of order or overlapping, and write out
        everything that has become contiguous. */
    method PushSubstring(data: seq<byte>, index: nat, last: bool)
      requires Valid()
      requires capacity + output.byteRead + |data| < TWO_64
      modifies this, output
      ensures Valid() && View() == old(View()).Push(data, index, last)
    {
      hide Indexes, Complements, Reassembler.Drain, Reassembler.CloseIfEmpty, Reassembler.Store, Inv;
      ghost var m := View();
      PushKeeps(m, data, index, last);
      if index >= capacity + output.byteRead { return; }
      var tmp := data;
      if index + |tmp| > capacity + output.byteRead {
        tmp := tmp[..capacity + output.byteRead - index];
      } else {
        eof := eof || last;
      }
      assert tmp == m.Clip(data, index);
      assert Shape() == m.(eof := m.eof || (last && index + |data| <= m.Limit()));
      if index + |tmp| <= assembledBytes {
        CloseIfEmpty();
        return;
      }
      assert Loose(Shape()) by { InvIsLoose(m, Shape()); }
      Accept(tmp, index);
    }

    /** The application reads from the output stream. */
    method ReadOutput(len: nat) returns (ret: seq<byte>)
      requires Valid()
      modifies output
      ensures Valid() && View() == old(View()).Read(len)
      ensures ret == old(output.View()).Peek(len)
    {
      ReadKeeps(View(), len);
      ret := output.Read(len);
    }
  }

  lemma InvIsLoose(m: Reassembler, m': Reassembler)
    requires Inv(m) && m' == m.(eof := m'.eof)
    ensures Loose(m')
  {
  }
}
