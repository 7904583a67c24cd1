/** Packets, which carry data and form linked lists at the same time. */
module Packets {
  const DATA_SIZE := 4

  class Packet {
    var link: Packet?
    var id: int
    const kind: int
    var a1: int
    var a2: seq<int>

    constructor (link: Packet?, id: int, kind: int)
      ensures this.link == link && this.id == id && this.kind == kind && a1 == 0 && a2 == [0, 0, 0, 0]
    {
      this.link, this.id, this.kind := link, id, kind;
      a1, a2 := 0, [0, 0, 0, 0];
    }
  }

  /** p is the head of the list l. */
  predicate IsHead(p: Packet?, l: seq<Packet>) {
    if l == [] then p == null else p == l[0]
  }

  /** What follows place k of the list. */
  function Next(l: seq<Packet>, k: int): Packet?
    requires 0 <= k < |l|
  {
    if k + 1 < |l| then l[k + 1] else null
  }

  /** The links run through l and end there. */
  ghost predicate Linked(l: seq<Packet>)
    reads (set p | p in l)`link
  {
    forall k {:trigger l[k].link} :: 0 <= k < |l| ==> l[k].link == Next(l, k)
  }

  ghost predicate NoDuplicates(l: seq<Packet>) {
    forall i, j :: 0 <= i < j < |l| ==> l[i] != l[j]
  }

  /** Add p at the end of the list; the head of the longer list. */
  method AddTo(p: Packet, queue: Packet?, ghost l: seq<Packet>) returns (head: Packet)
    requires IsHead(queue, l) && Linked(l) && NoDuplicates(l) && p !in l
    modifies p`link, (if l == [] then {} else {l[|l| - 1]})`link
    ensures IsHead(head, l + [p]) && Linked(l + [p])
  {
    p.link := null;
    if queue == null { return p; }
    var next: Packet := queue;
    ghost var k := 0;
    var peek := next.link;
    while peek != null
      invariant 0 <= k < |l| && next == l[k] && peek == Next(l, k)
      invariant p !in l && Linked(l)
      decreases |l| - k
    {
      next := peek;
      k := k + 1;
      peek := next.link;
    }
    assert k == |l| - 1;
    next.link := p;
    head := queue;
  }
}
