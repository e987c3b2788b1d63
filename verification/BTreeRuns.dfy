/** Whole runs: any sequence of insertions and deletions on a tree of any order. */
module BTreeRuns {
  import opened BTreeShape
  import opened BTree

  datatype Op = Insert(key: int, value: int) | Delete(key: int)

  predicate InRange(op: Op) {
    0 <= op.key < LIMIT
  }

  /** The map a run must produce: each operation seen as an operation on a finite map. */
  function Meaning(ops: seq<Op>): map<int, int> {
    if ops == [] then map[]
    else
      var before := Meaning(ops[..|ops| - 1]);
      match ops[|ops| - 1]
      case Insert(k, v) => before[k := v]
      case Delete(k) => before - {k}
  }

  /** After every run from the empty tree the tree is valid and stands for the run's map. */
  method Run(order: nat, ops: seq<Op>) returns (t: BPlusTree)
    requires order >= 3 && forall i :: 0 <= i < |ops| ==> InRange(ops[i])
    ensures fresh(t) && t.order == order && t.Valid() && t.Contents() == Meaning(ops)
  {
    t := new BPlusTree(order);
    for i := 0 to |ops|
      invariant fresh(t) && t.order == order && t.Valid()
      invariant t.Contents() == Meaning(ops[..i])
    {
      assert InRange(ops[i]);
      assert ops[..i + 1][..i] == ops[..i];
      match ops[i]
      case Insert(k, v) => t.Insert(k, v);
      case Delete(k) => t.Delete(k);
    }
    assert ops[..|ops|] == ops;
  }

  /** Operation i is the insertion of key that no later operation on key overrides. */
  predicate LastInsert(ops: seq<Op>, key: int, i: nat) {
    i < |ops| && ops[i].Insert? && ops[i].key == key && forall j :: i < j < |ops| ==> ops[j].key != key
  }

  /** What a run means for one key: its last insertion counts unless a deletion follows it. */
  lemma {:induction false} LastWriteWins(ops: seq<Op>, key: int)
    ensures key in Meaning(ops) <==> exists i: nat :: LastInsert(ops, key, i)
    ensures forall i: nat :: LastInsert(ops, key, i) ==> key in Meaning(ops) && Meaning(ops)[key] == ops[i].value
  {
    if ops != [] {
      var m := |ops| - 1;
      var init := ops[..m];
      LastWriteWins(init, key);
      if ops[m].key != key {
        forall i: nat
          ensures LastInsert(ops, key, i) <==> LastInsert(init, key, i)
        {
        }
      } else if ops[m].Insert? {
        assert LastInsert(ops, key, m);
      }
    }
  }
}
