/** Parsers over a byte stream that arrives in pieces. */
module Streaming {
  import opened Bytes

  /** What a parser makes of the bytes that have arrived */
  datatype Step<T> =
    | Wait
    | Take(item: T, used: nat)
    | Broken

  type Parser<!T> = seq<byte> -> Step<T>

  /** A decision, once taken, does not change when more bytes arrive. */
  ghost predicate IsStreaming<T(!new)>(next: Parser<T>) {
    && (forall a: seq<byte> :: next(a).Take? ==> 0 < next(a).used <= |a|)
    && (forall a: seq<byte>, b: seq<byte> :: !next(a).Wait? ==> next(a + b) == next(a))
  }

  datatype Drained<T> = Drained(items: seq<T>, rest: seq<byte>)

  /** Everything that can be taken out of s, and what is left */
  ghost function Drain<T(!new)>(next: Parser<T>, s: seq<byte>): Drained<T>
    requires IsStreaming(next)
    decreases |s|
  {
    match next(s)
    case Take(item, used) =>
      var others := Drain(next, s[used..]);
      Drained([item] + others.items, others.rest)
    case _ => Drained([], s)
  }

  lemma DrainUnfolds<T(!new)>(next: Parser<T>, s: seq<byte>)
    requires IsStreaming(next)
    ensures next(s).Take? ==> 0 < next(s).used <= |s|
    ensures Drain(next, s) == if next(s).Take? then
                                var later := Drain(next, s[next(s).used..]);
                                Drained([next(s).item] + later.items, later.rest)
                              else
                                Drained([], s)
  {
  }

  /** Draining what has arrived before the rest arrives makes no difference. */
  lemma {:induction false} DrainInPieces<T(!new)>(next: Parser<T>, a: seq<byte>, b: seq<byte>)
    requires IsStreaming(next)
    ensures var first := Drain(next, a);
            var second := Drain(next, first.rest + b);
            Drain(next, a + b) == Drained(first.items + second.items, second.rest)
    decreases |a|
  {
    hide Drain, IsStreaming;
    var first := Drain(next, a);
    var second := Drain(next, first.rest + b);
    DrainUnfolds(next, a);
    if next(a).Take? {
      var used := next(a).used;
      DrainInPieces(next, a[used..], b);
      TakenFirst(next, a, b);
      assert first.items == [next(a).item] + Drain(next, a[used..]).items;
      assert [next(a).item] + (Drain(next, a[used..]).items + second.items) == first.items + second.items;
    } else {
      assert [] + second.items == second.items;
    }
  }

  lemma TakenFirst<T(!new)>(next: Parser<T>, a: seq<byte>, b: seq<byte>)
    requires IsStreaming(next) && next(a).Take? && next(a).used <= |a|
    ensures var later := Drain(next, a[next(a).used..] + b);
            Drain(next, a + b) == Drained([next(a).item] + later.items, later.rest)
  {
    assert next(a + b) == next(a);
    assert (a + b)[next(a).used..] == a[next(a).used..] + b;
  }

  /** One step of draining, behind the items taken before */
  lemma DrainStep<T(!new)>(next: Parser<T>, done: seq<T>, s: seq<byte>)
    requires IsStreaming(next)
    ensures next(s).Take? ==> 0 < next(s).used <= |s|
    ensures var now := Drain(next, s);
            if next(s).Take? then
              var later := Drain(next, s[next(s).used..]);
              Drained(done + now.items, now.rest) == Drained(done + [next(s).item] + later.items, later.rest)
            else
              Drained(done + now.items, now.rest) == Drained(done, s)
  {
    if next(s).Take? {
      var later := Drain(next, s[next(s).used..]);
      assert done + ([next(s).item] + later.items) == done + [next(s).item] + later.items;
    }
  }

  /** What is left over holds no complete item. */
  lemma {:induction false} NothingLeft<T(!new)>(next: Parser<T>, s: seq<byte>)
    requires IsStreaming(next)
    ensures !next(Drain(next, s).rest).Take?
    decreases |s|
  {
    if next(s).Take? {
      NothingLeft(next, s[next(s).used..]);
    }
  }
}
