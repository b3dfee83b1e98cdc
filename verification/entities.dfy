/**
 * The entity table of main.c: 113 singly linked chains of names, indexed by
 * the hash of the name. A chain is modelled as a sequence with its head at
 * index 0; chains are never shared, so the sequence is the whole chain.
 *
 * addEntity and deleteEntity are modelled as written. Both stop at the first
 * node whose name DIFFERS from the argument: addEntity then gives up, and
 * deleteEntity blanks that node's name. Their comments describe the opposite
 * test; the departure lemmas at the end of this module show the difference.
 */
module Entities {
  import opened Hash

  /** True when every node of the chain carries `name` (vacuously for an empty chain). */
  predicate AllNamed(chain: seq<string>, name: string)
  {
    forall j :: 0 <= j < |chain| ==> chain[j] == name
  }

  /**
   * Position of the first node whose name differs from `name`, or the chain
   * length when there is none: where the chain walks of main.c stop.
   */
  function FirstOther(chain: seq<string>, name: string): (k: nat)
    ensures k <= |chain|
    ensures forall j :: 0 <= j < k ==> chain[j] == name
    ensures k < |chain| ==> chain[k] != name
  {
    if chain == [] || chain[0] != name then 0 else 1 + FirstOther(chain[1..], name)
  }

  /** The chain after addEntity(name): a new head only if no node's name differs from `name`. */
  function Added(chain: seq<string>, name: string): (r: seq<string>)
    ensures AllNamed(chain, name) ==> r == [name] + chain
    ensures !AllNamed(chain, name) ==> r == chain
  {
    if FirstOther(chain, name) == |chain| then [name] + chain else chain
  }

  /** The chain after deleteEntity(name): the first node whose name differs from `name` is blanked. */
  function Deleted(chain: seq<string>, name: string): (r: seq<string>)
    ensures |r| == |chain|
    ensures forall j :: 0 <= j < |chain| ==>
      r[j] == if chain[j] != name && AllNamed(chain[..j], name) then "" else chain[j]
    ensures AllNamed(chain, name) ==> r == chain
  {
    var k := FirstOther(chain, name);
    if k < |chain| then chain[k := ""] else chain
  }

  /** Number of entity nodes in the whole table. */
  function Count(t: seq<seq<string>>): nat
  {
    if t == [] then 0 else |t[0]| + Count(t[1..])
  }

  lemma {:induction false} CountUpdate(t: seq<seq<string>>, i: nat, chain: seq<string>)
    requires i < |t|
    ensures Count(t[i := chain]) + |t[i]| == Count(t) + |chain|
  {
    if i > 0 {
      assert t[i := chain][1..] == t[1..][i - 1 := chain];
      CountUpdate(t[1..], i - 1, chain);
    }
  }

  /**
   * The table invariant: 113 buckets, and every name still in the table is
   * a valid name that sits in the bucket its hash selects. Deleted nodes
   * carry the empty name.
   */
  ghost predicate Placed(t: seq<seq<string>>)
  {
    |t| == HASH_SIZE_ENT &&
    forall i, j :: 0 <= i < |t| && 0 <= j < |t[i]| && t[i][j] != "" ==>
      ValidName(t[i][j]) && Bucket(t[i][j]) == i
  }

  /** The whole table after addEntity(name). */
  function AddedTable(t: seq<seq<string>>, name: string): (r: seq<seq<string>>)
    requires |t| == HASH_SIZE_ENT && Indexable(name)
    ensures |r| == |t|
    ensures forall i :: 0 <= i < |t| && i != Bucket(name) ==> r[i] == t[i]
    ensures Count(r) == Count(t) + if AllNamed(t[Bucket(name)], name) then 1 else 0
    ensures Placed(t) ==> Placed(r)
  {
    var h := Bucket(name);
    CountUpdate(t, h, Added(t[h], name));
    t[h := Added(t[h], name)]
  }

  /** The whole table after deleteEntity(name). */
  function DeletedTable(t: seq<seq<string>>, name: string): (r: seq<seq<string>>)
    requires |t| == HASH_SIZE_ENT && Indexable(name)
    ensures |r| == |t|
    ensures forall i :: 0 <= i < |t| && i != Bucket(name) ==> r[i] == t[i]
    ensures forall i :: 0 <= i < |t| ==> |r[i]| == |t[i]|
    ensures Count(r) == Count(t)
    ensures Placed(t) ==> Placed(r)
  {
    var h := Bucket(name);
    CountUpdate(t, h, Deleted(t[h], name));
    t[h := Deleted(t[h], name)]
  }

  /** A non-empty name can only be found in its own bucket. */
  lemma OnlyInOwnBucket(t: seq<seq<string>>, name: string, i: nat)
    requires Placed(t) && name != "" && i < |t| && name in t[i]
    ensures Indexable(name) && Bucket(name) == i
  {
    var j :| 0 <= j < |t[i]| && t[i][j] == name;
  }

  /**
   * Because the test admits a chain made only of `name`, adding the same
   * name twice to such a chain stores it twice.
   */
  lemma AddTwiceDuplicates(chain: seq<string>, name: string)
    requires AllNamed(chain, name)
    ensures Added(Added(chain, name), name) == [name, name] + chain
  {
    assert AllNamed([name] + chain, name) by {
      forall j | 0 <= j < |[name] + chain| ensures ([name] + chain)[j] == name {
        if j > 0 { assert ([name] + chain)[j] == chain[j - 1]; }
      }
    }
  }

  /** Deleting a name never removes that name from its chain. */
  lemma DeleteKeepsName(chain: seq<string>, name: string)
    requires name in chain
    ensures name in Deleted(chain, name)
  {
    var j :| 0 <= j < |chain| && chain[j] == name;
    assert Deleted(chain, name)[j] == name;
  }

  /**
   * Where addEntity departs from its comment "adds a new entity to the
   * table, if absent": an absent name is not added to a non-empty chain of
   * other names, and a present name is added again.
   */
  lemma AddDepartsFromComment(chain: seq<string>, name: string)
    requires chain != []
    ensures name !in chain ==> Added(chain, name) == chain
    ensures AllNamed(chain, name) ==> name in chain && |Added(chain, name)| == |chain| + 1
  {
    if name !in chain {
      assert chain[0] != name;
    }
  }

  /**
   * Where deleteEntity departs from its comment "element exists": it blanks
   * a node whose name is another one, and leaves a chain made only of
   * `name` as it was.
   */
  lemma DeleteDepartsFromComment(chain: seq<string>, name: string)
    requires chain != [] && name !in chain
    ensures Deleted(chain, name) == chain[0 := ""]
  {
    assert chain[0] != name;
    assert AllNamed(chain[..0], name);
  }

  /** The global `entityTable`: an array of 113 chains, updated in place. */
  class EntityTable {
    var buckets: array<seq<string>>

    ghost predicate Valid()
      reads this, buckets
    {
      Placed(buckets[..])
    }

    /** The zero-initialised global: every chain is empty. */
    constructor ()
      ensures Valid() && fresh(buckets)
      ensures forall i :: 0 <= i < buckets.Length ==> buckets[i] == []
      ensures Count(buckets[..]) == 0
    {
      buckets := new seq<string>[HASH_SIZE_ENT](_ => []);
      new;
      CountEmpty(buckets[..]);
    }

    /** addEntity: prepend `name` to its chain unless the walk finds a node with another name. */
    method AddEntity(name: string)
      requires Valid() && Indexable(name)
      modifies buckets
      ensures Valid()
      ensures buckets[..] == AddedTable(old(buckets[..]), name)
    {
      var h := ComputeHash(name, HASH_MULTIPLIER, HASH_SIZE_ENT);
      var chain := buckets[h];
      var k := 0;
      while k < |chain|
        invariant k <= |chain|
        invariant AllNamed(chain[..k], name)
      {
        if chain[k] != name {
          assert !AllNamed(chain, name);
          return;
        }
        k := k + 1;
      }
      assert chain[..k] == chain;
      buckets[h] := [name] + chain;
    }

    /** deleteEntity: blank the first node of the chain whose name differs from `name`. */
    method DeleteEntity(name: string)
      requires Valid() && Indexable(name)
      modifies buckets
      ensures Valid()
      ensures buckets[..] == DeletedTable(old(buckets[..]), name)
    {
      var h := ComputeHash(name, HASH_MULTIPLIER, HASH_SIZE_ENT);
      var chain := buckets[h];
      var k := 0;
      while k < |chain|
        invariant k <= |chain|
        invariant AllNamed(chain[..k], name)
      {
        if chain[k] != name {
          assert FirstOther(chain, name) == k;
          buckets[h] := chain[k := ""];
          return;
        }
        k := k + 1;
      }
    }
  }

  lemma {:induction false} CountEmpty(t: seq<seq<string>>)
    requires forall i :: 0 <= i < |t| ==> t[i] == []
    ensures Count(t) == 0
  {
    if t != [] { CountEmpty(t[1..]); }
  }
}
