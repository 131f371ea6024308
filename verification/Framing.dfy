/** The packet-splitting contract of net/connection.cpp:56-59: a splitter looks at the unread bytes and answers the
    length of the packet they start with, or 0 when the packet is not complete yet. */
module Framing {
  import opened Machine
  import opened Seqs

  type Splitter = seq<byte> -> nat

  /** The least the dispatch loop needs: a packet is not longer than what is there. */
  ghost predicate Bounded(split: Splitter) {
    forall s: seq<byte> :: split(s) <= |s|
  }

  /** Bytes that arrive later do not change the length of a complete packet. */
  ghost predicate PrefixStable(split: Splitter) {
    && Bounded(split)
    && forall s: seq<byte>, t: seq<byte> {:trigger split(s + t)} :: split(s) > 0 ==> split(s + t) == split(s)
  }

  datatype Cut = Cut(packets: seq<seq<byte>>, rest: seq<byte>)

  /** Cut packets off the front of `s` until the splitter asks for more. */
  ghost function Greedy(split: Splitter, s: seq<byte>): (c: Cut)
    requires Bounded(split)
    ensures split(c.rest) == 0
    decreases |s|
  {
    var n := split(s);
    if n == 0 then Cut([], s)
    else
      assert split(s) <= |s|;
      var c := Greedy(split, s[n..]);
      Cut([s[..n]] + c.packets, c.rest)
  }

  /** Cut `s`, then go on with its rest and the bytes `t` that arrive next. */
  ghost function Resumed(split: Splitter, s: seq<byte>, t: seq<byte>): Cut
    requires Bounded(split)
  {
    var c := Greedy(split, s);
    var d := Greedy(split, c.rest + t);
    Cut(c.packets + d.packets, d.rest)
  }

  function Flatten(packets: seq<seq<byte>>): (s: seq<byte>)
    decreases |packets|
  {
    if packets == [] then [] else packets[0] + Flatten(packets[1..])
  }

  lemma {:induction false} FlattenAppend(a: seq<seq<byte>>, b: seq<seq<byte>>)
    ensures Flatten(a + b) == Flatten(a) + Flatten(b)
    decreases |a|
  {
    if a == [] {
      assert a + b == b;
    } else {
      ConsAppend(a, b);
      FlattenAppend(a[1..], b);
      Assoc(a[0], Flatten(a[1..]), Flatten(b));
    }
  }

  /** Cutting loses nothing. */
  lemma {:induction false} GreedyConserves(split: Splitter, s: seq<byte>)
    requires Bounded(split)
    ensures var c := Greedy(split, s); Flatten(c.packets) + c.rest == s
    decreases |s|
  {
    var n := split(s);
    if n > 0 {
      assert split(s) <= |s|;
      GreedyConserves(split, s[n..]);
      var c := Greedy(split, s[n..]);
      Cons(s[..n], c.packets);
      Assoc(s[..n], Flatten(c.packets), c.rest);
      Split(s, n);
    }
  }

  /** A packet in front of an already computed cut. */
  ghost function Prepend(packet: seq<byte>, c: Cut): Cut {
    Cut([packet] + c.packets, c.rest)
  }

  lemma ResumedStep(split: Splitter, s: seq<byte>, t: seq<byte>)
    requires Bounded(split) && split(s) > 0
    ensures split(s) <= |s| && Resumed(split, s, t) == Prepend(s[..split(s)], Resumed(split, s[split(s)..], t))
  {
    var n := split(s);
    var tail := Greedy(split, s[n..]);
    var more := Greedy(split, tail.rest + t);
    Assoc([s[..n]], tail.packets, more.packets);
  }

  lemma {:induction false} StableImpliesResumable(split: Splitter, s: seq<byte>, t: seq<byte>)
    requires PrefixStable(split)
    ensures Greedy(split, s + t) == Resumed(split, s, t)
    decreases |s|
  {
    var n := split(s);
    if n == 0 {
      assert Greedy(split, s).packets == [];
    } else {
      ResumedStep(split, s, t);
      assert split(s + t) == n && (s + t)[n..] == s[n..] + t && (s + t)[..n] == s[..n];
      StableImpliesResumable(split, s[n..], t);
      assert Greedy(split, s + t) == Prepend(s[..n], Greedy(split, s[n..] + t));
    }
  }

  /** Which splitters frame independently of how reads cut the stream: the prefix-stable ones, and no others. */
  lemma ResumableExactlyWhenStable(split: Splitter)
    requires Bounded(split)
    ensures (forall s, t :: Greedy(split, s + t) == Resumed(split, s, t)) <==> PrefixStable(split)
  {
    if PrefixStable(split) {
      forall s, t ensures Greedy(split, s + t) == Resumed(split, s, t) {
        StableImpliesResumable(split, s, t);
      }
    }
    if forall s, t :: Greedy(split, s + t) == Resumed(split, s, t) {
      forall s: seq<byte>, t: seq<byte> | split(s) > 0
        ensures split(s + t) == split(s)
      {
        assert split(s) <= |s| && split(s + t) <= |s + t|;
        assert Greedy(split, s).packets[0] == s[..split(s)];
        assert Resumed(split, s, t).packets[0] == s[..split(s)];
        assert Greedy(split, s + t).packets[0] == s[..split(s)];
        assert |(s + t)[..split(s + t)]| == |s[..split(s)]|;
      }
    }
  }

  /** The splitter of samples/echo.cpp:23-27 takes whatever is there.  It is bounded but not stable: its packets show
      where the reads cut the stream. */
  function EchoSplit(s: seq<byte>): (n: nat)
    ensures n <= |s|
  {
    |s|
  }

  lemma EchoGreedy(s: seq<byte>)
    ensures Bounded(EchoSplit)
    ensures Greedy(EchoSplit, s) == Cut(if s == [] then [] else [s], [])
  {
    assert s[..|s|] == s && s[|s|..] == [];
    assert Greedy(EchoSplit, []) == Cut([], []);
  }

  lemma EchoFramingShowsCuts()
    ensures Bounded(EchoSplit) && !PrefixStable(EchoSplit)
    ensures Greedy(EchoSplit, [1] + [2]).packets == [[1, 2]]
    ensures Resumed(EchoSplit, [1], [2]).packets == [[1], [2]]
  {
    assert EchoSplit([1]) == 1 && EchoSplit([1] + [2]) == 2;
    EchoGreedy([1]);
    EchoGreedy([2]);
    EchoGreedy([1, 2]);
    assert [] + [2 as byte] == [2] && [1 as byte] + [2] == [1, 2];
  }
}
