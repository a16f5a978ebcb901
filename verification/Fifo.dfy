/** A 256-byte queue with nine-bit pointers: the extra bit tells full from empty. */
module Fifo {

  const SIZE: nat := 256
  const WRAP: nat := 512

  datatype Queue = Queue(mem: seq<nat>, wp: nat, rp: nat)

  ghost predicate Valid(q: Queue) {
    |q.mem| == SIZE && q.wp < WRAP && q.rp < WRAP && Held(q) <= SIZE
  }

  /** (wp - rp) mod 512. */
  function Held(q: Queue): nat
    requires q.wp < WRAP && q.rp < WRAP
  {
    (q.wp + WRAP - q.rp) % WRAP
  }

  predicate Empty(q: Queue) { q.wp == q.rp }
  predicate Full(q: Queue) { q.wp % SIZE == q.rp % SIZE && q.wp / SIZE % 2 != q.rp / SIZE % 2 }

  /** The bytes waiting, oldest first. */
  function Contents(q: Queue): (c: seq<nat>)
    requires |q.mem| == SIZE && q.wp < WRAP && q.rp < WRAP
    ensures |c| == Held(q)
  {
    seq(Held(q), i => q.mem[(q.rp + i) % SIZE])
  }

  function Head(q: Queue): nat
    requires |q.mem| == SIZE
  {
    q.mem[q.rp % SIZE]
  }

  /** One edge: a byte in, a byte out, both or neither. */
  function Clocked(q: Queue, push: bool, x: nat, pop: bool): Queue
    requires |q.mem| == SIZE
  {
    Queue(if push then q.mem[q.wp % SIZE := x] else q.mem,
          if push then (q.wp + 1) % WRAP else q.wp,
          if pop then (q.rp + 1) % WRAP else q.rp)
  }

  lemma {:induction false} Flags(q: Queue)
    requires Valid(q)
    ensures Empty(q) <==> Contents(q) == []
    ensures Full(q) <==> |Contents(q)| == SIZE
    ensures !Empty(q) ==> Head(q) == Contents(q)[0]
  {
  }

  lemma {:induction false} SlotsApart(wp: nat, rp: nat, i: nat)
    requires wp < WRAP && rp < WRAP && i < (wp + WRAP - rp) % WRAP < SIZE
    ensures (rp + i) % SIZE != wp % SIZE
  {
  }

  lemma {:induction false} OneMore(wp: nat, rp: nat)
    requires wp < WRAP && rp < WRAP && (wp + WRAP - rp) % WRAP < SIZE
    ensures ((wp + 1) % WRAP + WRAP - rp) % WRAP == (wp + WRAP - rp) % WRAP + 1
    ensures (rp + (wp + WRAP - rp) % WRAP) % SIZE == wp % SIZE
  {
  }

  lemma {:induction false} Pushed(q: Queue, x: nat)
    requires Valid(q) && !Full(q)
    ensures var q' := Clocked(q, true, x, false); Valid(q') && Contents(q') == Contents(q) + [x]
  {
    Flags(q);
    hide Full;
    var q' := Clocked(q, true, x, false);
    OneMore(q.wp, q.rp);
    forall i | 0 <= i < Held(q)
      ensures Contents(q')[i] == Contents(q)[i]
    {
      SlotsApart(q.wp, q.rp, i);
    }
  }

  lemma {:induction false} Popped(q: Queue)
    requires Valid(q) && !Empty(q)
    ensures var q' := Clocked(q, false, 0, true); Valid(q') && Contents(q') == Contents(q)[1..]
  {
  }

  /** Pushed only with room and popped only with a byte there, the queue is a queue. */
  lemma {:induction false} Queues(q: Queue, push: bool, x: nat, pop: bool)
    requires Valid(q) && (push ==> !Full(q)) && (pop ==> !Empty(q))
    ensures var q' := Clocked(q, push, x, pop);
      Valid(q') && Contents(q') == (if pop then Contents(q)[1..] else Contents(q)) + (if push then [x] else [])
  {
    Flags(q);
    if push {
      Pushed(q, x);
      if pop {
        var p := Clocked(q, true, x, false);
        assert !Empty(p) by { Flags(p); }
        Popped(p);
        assert Clocked(q, true, x, true) == Clocked(p, false, 0, true);
        assert (Contents(q) + [x])[1..] == Contents(q)[1..] + [x];
      }
    } else if pop {
      Popped(q);
      assert Clocked(q, false, x, true) == Clocked(q, false, 0, true);
    } else {
      assert Clocked(q, false, x, false) == q;
    }
  }

  class Buffer {
    const mem: array<nat>
    var wp: nat
    var rp: nat

    function St(): Queue
      reads this, mem
    {
      Queue(mem[..], wp, rp)
    }

    constructor ()
      ensures Valid(St()) && Contents(St()) == [] && fresh(mem)
    {
      mem := new nat[SIZE];
      wp, rp := 0, 0;
    }

    /** The edge, guarded as the module guards it. */
    method Clock(push: bool, x: nat, pop: bool)
      requires Valid(St()) && (push ==> !Full(St())) && (pop ==> !Empty(St()))
      modifies this, mem
      ensures St() == Clocked(old(St()), push, x, pop) && Valid(St())
      ensures Contents(St())
          == (if pop then old(Contents(St()))[1..] else old(Contents(St()))) + (if push then [x] else [])
    {
      Queues(St(), push, x, pop);
      if push {
        mem[wp % SIZE] := x;
        wp := (wp + 1) % WRAP;
      }
      if pop {
        rp := (rp + 1) % WRAP;
      }
    }
  }
}
