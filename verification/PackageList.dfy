// The list of bitstream packages between the reading and the decoding thread:
// linked nodes, a count and a busy flag.

module PackageList {
  import opened Bytes

  const LIMIT := 4
  const BUSY := -3
  const ENOUGH := -2

  // ---------------------------------------------------------------- the queue it stands for

  predicate Accepts(q: seq<seq<byte>>, busy: bool) {
    !busy && |q| < LIMIT
  }

  function Added(q: seq<seq<byte>>, busy: bool, bytes: seq<byte>): seq<seq<byte>> {
    if Accepts(q, busy) then q + [bytes] else q
  }

  predicate Gives(q: seq<seq<byte>>, busy: bool) {
    !busy && q != []
  }

  function Removed(q: seq<seq<byte>>, busy: bool): seq<seq<byte>> {
    if Gives(q, busy) then q[1..] else q
  }

  // ---------------------------------------------------------------- the list

  // struct package; the link of a new node is whatever malloc left there.
  class Package {
    const data: seq<byte>
    var next: Package?

    constructor (data: seq<byte>, garbage: Package?)
      ensures this.data == data && this.next == garbage
    {
      this.data := data;
      this.next := garbage;
    }
  }

  function Data(nodes: seq<Package>): (q: seq<seq<byte>>)
    ensures |q| == |nodes|
  {
    seq(|nodes|, i requires 0 <= i < |nodes| => nodes[i].data)
  }

  class List {
    var first: Package?
    var packNum: nat
    var current: Package?
    var mutex: bool
    ghost var nodes: seq<Package>

    // The count, not the links, says where the list ends: the last link is never read.
    ghost predicate Valid()
      reads this, nodes
    {
      && packNum == |nodes| <= LIMIT
      && (nodes != [] ==> first == nodes[0] && current == nodes[|nodes| - 1])
      && (forall i :: 0 <= i < |nodes| - 1 ==> nodes[i].next == nodes[i + 1])
      && (forall i, j :: 0 <= i < j < |nodes| ==> nodes[i] != nodes[j])
    }

    ghost function Contents(): (q: seq<seq<byte>>)
      reads this
      ensures |q| == |nodes|
    {
      Data(nodes)
    }

    // package_list_init
    constructor ()
      ensures Valid() && Contents() == [] && !mutex
    {
      first, packNum, current, mutex := null, 0, null, false;
      nodes := [];
    }

    // package_add
    method Add(bytes: seq<byte>, garbage: Package?) returns (ret: int)
      requires Valid()
      modifies this, nodes
      ensures Valid() && mutex == old(mutex)
      ensures ret == if old(mutex) then -3 else if |old(Contents())| == 4 then -2 else 0
      ensures Contents() == if ret == 0 then old(Contents()) + [bytes] else old(Contents())
      ensures Contents() == Added(old(Contents()), old(mutex), bytes)
      ensures fresh(set p | p in nodes && p !in old(nodes))
    {
      if mutex {
        return BUSY;
      }
      mutex := true;
      if packNum == LIMIT {
        mutex := false;
        return ENOUGH;
      }
      var p := new Package(bytes, garbage);
      if packNum == 0 {
        first := p;
        current := p;
        packNum := 1;
      } else {
        current.next := p;
        current := p;
        packNum := packNum + 1;
      }
      nodes := nodes + [p];
      mutex := false;
      assert Data(nodes) == Data(old(nodes)) + [bytes];
      return 0;
    }

    // package_get
    method Get() returns (p: Package?)
      requires Valid()
      modifies this
      ensures Valid() && mutex == old(mutex)
      ensures p != null <==> !old(mutex) && old(Contents()) != []
      ensures if p == null then Contents() == old(Contents()) else [p.data] + Contents() == old(Contents())
      ensures Contents() == Removed(old(Contents()), old(mutex))
      ensures forall n :: n in nodes ==> n in old(nodes)
    {
      if mutex {
        return null;
      }
      mutex := true;
      if packNum == 0 {
        mutex := false;
        return null;
      }
      p := first;
      if packNum == 1 {
        first := null;
        packNum := 0;
        current := null;
      } else {
        first := first.next;
        packNum := packNum - 1;
      }
      nodes := nodes[1..];
      mutex := false;
      assert Data(nodes) == Data(old(nodes))[1..];
    }

    // package_list_free, once the flag is clear.
    method Free()
      requires Valid() && !mutex
      modifies this
      ensures Valid() && !mutex && Contents() == []
    {
      mutex := true;
      while packNum != 0
        invariant Valid()
        decreases packNum
      {
        first := first.next;
        packNum := packNum - 1;
        nodes := nodes[1..];
      }
      mutex := false;
    }
  }
}
