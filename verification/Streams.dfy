// Entry streams and their consumers. A Go iterator is the sequence of pairs it
// would yield; its consumer may stop it at any point.
module Streams {
  import opened Net
  import opened Records

  datatype Entry = Entry(network: Prefix, record: Record)

  /** One pair of iter.Seq2[Entry, error]. */
  datatype Item = Ok(entry: Entry) | Err(msg: string)

  /** What a consumer that already has `got` and wants `limit` items holds after being offered `s`. */
  function Deliver<T>(got: seq<T>, s: seq<T>, limit: nat): seq<T> {
    if |got| >= limit then got
    else if |got| + |s| <= limit then got + s
    else got + s[..limit - |got|]
  }

  lemma DeliverConcat<T>(got: seq<T>, a: seq<T>, b: seq<T>, limit: nat)
    ensures Deliver(got, a + b, limit) == Deliver(Deliver(got, a, limit), b, limit)
  {
    if |got| < limit {
      if |got| + |a| > limit {
        assert (a + b)[..limit - |got|] == a[..limit - |got|];
      } else if |got| + |a| == limit {
        assert (a + b)[..|a|] == a;
      } else {
        assert (got + a) + b == got + (a + b);
        if |got| + |a| + |b| > limit { TakeConcat(got, a, b, limit - |got| - |a|); }
      }
    }
  }

  lemma TakeConcat<T>(got: seq<T>, a: seq<T>, b: seq<T>, n: nat)
    requires n <= |b|
    ensures got + (a + b)[..|a| + n] == got + a + b[..n]
  {
    assert (a + b)[..|a| + n] == a + b[..n];
  }

  /** Yielding item by item until the items or the consumer's patience run out. */
  lemma DeliverPart<T>(got: seq<T>, s: seq<T>, n: nat, limit: nat)
    requires n <= |s| && |got| + n <= limit
    requires n == |s| || |got| + n == limit
    ensures got + s[..n] == Deliver(got, s, limit)
  {
    if n == |s| { assert s[..n] == s; }
    if |got| >= limit { assert got + s[..n] == got; }
  }

  lemma DeliverDone<T>(got: seq<T>, s: seq<T>, limit: nat)
    requires |got| >= limit
    ensures Deliver(got, s, limit) == got
  {
  }

  lemma DeliverNone<T>(got: seq<T>, limit: nat)
    ensures Deliver(got, [], limit) == got
  {
  }

  /** The loop body of `for x := range seq`: it is never entered again after yield returned false. */
  class Consumer<T> {
    const limit: nat
    var got: seq<T>

    constructor (limit: nat)
      ensures this.limit == limit && got == []
    {
      this.limit := limit;
      got := [];
    }

    predicate Done()
      reads this
    {
      |got| >= limit
    }

    method Yield(i: T) returns (more: bool)
      requires !Done()
      modifies this
      ensures got == old(got) + [i] && more == !Done()
    {
      got := got + [i];
      more := |got| < limit;
    }
  }
}
