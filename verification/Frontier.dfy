/**
  The two frontier representations of the breadth-first search: SlidingQueue
  (trident-workloads/gapbs/src/sliding_queue.h) and Bitmap (bitmap.h).
*/
module Frontier {

  ghost predicate DistinctAt(s: seq<nat>, i: nat) {
    i < |s| && forall j :: 0 <= j < i ==> s[j] != s[i]
  }

  ghost predicate Distinct(s: seq<nat>) {
    forall i: nat {:trigger DistinctAt(s, i)} :: i < |s| ==> DistinctAt(s, i)
  }

  lemma DistinctAppend(s: seq<nat>, x: nat)
    requires Distinct(s) && x !in s
    ensures Distinct(s + [x])
  {
    var s' := s + [x];
    forall i: nat | i < |s'|
      ensures DistinctAt(s', i)
    {
      assert i < |s| ==> DistinctAt(s, i);
    }
  }

  function Elements(s: seq<nat>): set<nat> {
    set x | x in s
  }

  ghost function Below(n: nat): (b: set<nat>)
    ensures |b| == n && forall x: nat :: x in b <==> x < n
  {
    if n == 0 then {} else Below(n - 1) + {n - 1}
  }

  lemma SubsetSize(a: set<nat>, b: set<nat>)
    requires a <= b
    ensures |a| <= |b|
    ensures |a| == |b| ==> a == b
  {
    assert b == a + (b - a);
  }

  lemma {:induction false} DistinctSize(s: seq<nat>)
    requires Distinct(s)
    ensures |Elements(s)| == |s|
  {
    if s != [] {
      var m := |s| - 1;
      forall i: nat | i < m
        ensures DistinctAt(s[..m], i)
      {
        assert DistinctAt(s, i);
      }
      DistinctSize(s[..m]);
      assert DistinctAt(s, m);
      assert s == s[..m] + [s[m]];
      assert Elements(s) == Elements(s[..m]) + {s[m]};
    }
  }

  /** A queue of distinct vertices of a graph with n vertices that lacks one of them has room. */
  lemma RoomForOneMore(s: seq<nat>, n: nat, x: nat)
    requires Distinct(s) && Elements(s) <= Below(n) && x < n && x !in s
    ensures |s| < n
  {
    DistinctSize(s);
    SubsetSize(Elements(s) + {x}, Below(n));
  }

  /** Appends go to the end of shared and are not seen until the window slides over them. */
  class SlidingQueue {
    const shared: array<nat>
    var sharedIn: nat
    var outStart: nat
    var outEnd: nat

    ghost predicate Valid()
      reads this
    {
      outStart <= outEnd <= sharedIn <= shared.Length
    }

    ghost function Pushed(): seq<nat>
      requires Valid()
      reads this, shared
    {
      shared[..sharedIn]
    }

    ghost function Window(): seq<nat>
      requires Valid()
      reads this, shared
    {
      shared[outStart..outEnd]
    }

    constructor (size: nat)
      ensures Valid() && fresh(shared) && shared.Length == size
      ensures Pushed() == [] && Window() == [] && outEnd == sharedIn
    {
      shared := new nat[size];
      sharedIn, outStart, outEnd := 0, 0, 0;
    }

    method PushBack(x: nat)
      requires Valid() && sharedIn < shared.Length
      modifies this`sharedIn, shared
      ensures Valid() && Pushed() == old(Pushed()) + [x] && Window() == old(Window())
    {
      shared[sharedIn] := x;
      sharedIn := sharedIn + 1;
    }

    method SlideWindow()
      requires Valid()
      modifies this`outStart, this`outEnd
      ensures Valid() && Pushed() == old(Pushed())
      ensures Window() == old(Pushed()[outEnd..]) && outEnd == sharedIn
    {
      outStart := outEnd;
      outEnd := sharedIn;
    }
  }

  const BITS_PER_WORD: nat := 64

  predicate WordsOk(words: seq<seq<bool>>, size: nat) {
    && size <= |words| * BITS_PER_WORD
    && forall i :: 0 <= i < |words| ==> |words[i]| == BITS_PER_WORD
  }

  predicate BitAt(words: seq<seq<bool>>, size: nat, pos: nat) {
    WordsOk(words, size) && pos < size && words[pos / BITS_PER_WORD][pos % BITS_PER_WORD]
  }

  /** members is the set of positions whose bit is set. */
  ghost predicate BitsOk(words: seq<seq<bool>>, size: nat, members: set<nat>) {
    && WordsOk(words, size)
    && members <= Below(size)
    && forall pos: nat {:trigger BitAt(words, size, pos)} :: pos < size ==> (BitAt(words, size, pos) <==> pos in members)
  }

  lemma BitSet(words: seq<seq<bool>>, size: nat, members: set<nat>, pos: nat)
    requires BitsOk(words, size, members) && pos < size
    ensures pos / BITS_PER_WORD < |words|
    ensures BitsOk(words[pos / BITS_PER_WORD := words[pos / BITS_PER_WORD][pos % BITS_PER_WORD := true]], size, members + {pos})
  {
    var w := pos / BITS_PER_WORD;
    var words' := words[w := words[w][pos % BITS_PER_WORD := true]];
    forall q: nat | q < size
      ensures BitAt(words', size, q) <==> q in members + {pos}
    {
      assert q / BITS_PER_WORD == w && q % BITS_PER_WORD == pos % BITS_PER_WORD ==> q == pos;
      assert BitAt(words, size, q) <==> q in members;
    }
  }

  /** A set of vertices below size, one bit each; a word is modelled as its 64 bits. */
  class Bitmap {
    const size: nat
    var words: array<seq<bool>>
    ghost var members: set<nat>

    ghost predicate Valid()
      reads this, words
    {
      BitsOk(words[..], size, members)
    }

    constructor (size: nat)
      ensures Valid() && fresh(words) && this.size == size && members == {}
    {
      this.size := size;
      words := new seq<bool>[(size + BITS_PER_WORD - 1) / BITS_PER_WORD](_ => seq(BITS_PER_WORD, _ => false));
      members := {};
    }

    method GetBit(pos: nat) returns (b: bool)
      requires Valid() && pos < size
      ensures b <==> pos in members
    {
      assert BitAt(words[..], size, pos) <==> pos in members;
      b := words[pos / BITS_PER_WORD][pos % BITS_PER_WORD];
    }

    method Reset()
      requires Valid()
      modifies words, this`members
      ensures Valid() && members == {}
    {
      for i := 0 to words.Length
        invariant forall j :: 0 <= j < i ==> words[j] == seq(BITS_PER_WORD, _ => false)
      {
        words[i] := seq(BITS_PER_WORD, _ => false);
      }
      members := {};
    }

    method SetBit(pos: nat)
      requires Valid() && pos < size
      modifies words, this`members
      ensures Valid() && members == old(members) + {pos}
    {
      BitSet(words[..], size, members, pos);
      var w := pos / BITS_PER_WORD;
      ghost var was := words[..];
      words[w] := words[w][pos % BITS_PER_WORD := true];
      assert words[..] == was[w := was[w][pos % BITS_PER_WORD := true]];
      members := members + {pos};
    }

    method Swap(other: Bitmap)
      requires Valid() && other.Valid() && size == other.size
      modifies this`words, other`words, this`members, other`members
      ensures Valid() && other.Valid()
      ensures words == old(other.words) && other.words == old(words)
      ensures members == old(other.members) && other.members == old(members)
    {
      words, other.words := other.words, words;
      members, other.members := other.members, members;
    }
  }

  /** BUStep sets bits without atomics: its dynamic chunks of 1024 vertices never share a word. */
  lemma ChunksOwnTheirWords(u: nat, v: nat)
    requires u / 1024 != v / 1024
    ensures u / BITS_PER_WORD != v / BITS_PER_WORD
  {
  }
}
