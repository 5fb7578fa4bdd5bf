/** The destructor runs alone, after all threads have stopped. */
module StackDestructor {
  import opened LockFreeStack
  import opened LockFreeStackProof
  import LockFreeStackTheorems

  class StackMemory {
    var head: Addr
    var heap: map<Addr, Node>
    var freed: seq<Addr>

    constructor (m: Machine)
      ensures head == m.head && heap == m.heap && freed == []
    {
      head, heap, freed := m.head, m.heap, [];
    }

    /** Frees the nodes of the list from the top down, each once, and nothing else. That every
        map access below is in the domain is the absence of use after free. */
    method Destroy(ghost chain: seq<Addr>)
      requires Linked(heap, head, chain)
      modifies this
      ensures head == NULL
      ensures heap == old(heap) - Nodes(chain)
      ensures freed == old(freed) + TopDown(chain)
    {
      var node := head;
      head := NULL;
      ghost var rest := chain;
      while node != NULL
        invariant head == NULL && Linked(heap, node, rest)
        invariant Freed(old(heap), chain, heap, rest)
        invariant freed + TopDown(rest) == old(freed) + TopDown(chain)
        decreases |rest|
      {
        var next := heap[node].next;
        FreeTop(old(heap), chain, heap, node, rest);
        heap := heap - {node};
        freed := freed + [node];
        node := next;
        rest := rest[..|rest| - 1];
      }
    }
  }

  /** All of `chain` but its part `rest` has been freed. */
  ghost predicate Freed(start: map<Addr, Node>, chain: seq<Addr>, heap: map<Addr, Node>, rest: seq<Addr>) {
    heap == start - (Nodes(chain) - Nodes(rest)) && Nodes(rest) <= Nodes(chain)
  }

  lemma FreeTop(start: map<Addr, Node>, chain: seq<Addr>, heap: map<Addr, Node>, node: Addr, rest: seq<Addr>)
    requires Freed(start, chain, heap, rest) && Linked(heap, node, rest) && rest != []
    ensures Linked(heap - {node}, heap[node].next, rest[..|rest| - 1])
    ensures Freed(start, chain, heap - {node}, rest[..|rest| - 1])
  {
    var below := rest[..|rest| - 1];
    LinkedBelow(heap, node, rest);
    assert rest == below + [node] && Nodes(rest) == Nodes(below) + {node} && node !in below;
  }

  function Nodes(chain: seq<Addr>): set<Addr> {
    set a | a in chain
  }

  function TopDown(chain: seq<Addr>): seq<Addr> {
    if chain == [] then [] else [chain[|chain| - 1]] + TopDown(chain[..|chain| - 1])
  }

  /** After any run, once the threads are idle, the destructor leaves nothing allocated. */
  method DestroyAtRest(s: State) returns (memory: StackMemory)
    requires Reachable(s) && s.m.consumer == CIdle
    requires forall t :: 0 <= t < |s.m.producers| ==> s.m.producers[t] == PIdle
    ensures fresh(memory) && memory.heap == map[] && memory.freed == TopDown(s.h.chain)
    ensures multiset(memory.freed) == multiset(s.m.heap.Keys)
  {
    LockFreeStackTheorems.NothingLeakedAtRest(s);
    memory := new StackMemory(s.m);
    memory.Destroy(s.h.chain);
    TopDownOnce(s.h.chain);
  }

  lemma {:induction false} TopDownOnce(chain: seq<Addr>)
    requires forall i, j :: 0 <= i < j < |chain| ==> chain[i] != chain[j]
    ensures multiset(TopDown(chain)) == multiset(Nodes(chain))
  {
    if chain != [] {
      var below := chain[..|chain| - 1];
      TopDownOnce(below);
      assert chain == below + [chain[|chain| - 1]];
      assert Nodes(chain) == Nodes(below) + {chain[|chain| - 1]};
      assert chain[|chain| - 1] !in below;
    }
  }
}
