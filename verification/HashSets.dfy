/** The bucketed hash set of internal/set/hashset.go refines a mathematical set, given that equality is
    an equivalence and equal elements hash equally, and as long as no other struct shares its buckets. */
module HashSets {
  import opened Types

  /** What the set expects of its elements. */
  ghost predicate Lawful<T(!new)>(eq: (T, T) -> bool, hash: T -> uint64) {
    && (forall x :: eq(x, x))
    && (forall x, y :: eq(x, y) ==> eq(y, x))
    && (forall x, y, z :: eq(x, y) && eq(y, z) ==> eq(x, z))
    && (forall x, y :: eq(x, y) ==> hash(x) == hash(y))
  }

  /** All the values equal to x: what x stands for as an element. */
  ghost function ClassOf<T(!new)>(eq: (T, T) -> bool, x: T): iset<T> {
    iset y | eq(x, y)
  }

  lemma SameClass<T(!new)>(eq: (T, T) -> bool, hash: T -> uint64, x: T, y: T)
    requires Lawful(eq, hash)
    ensures ClassOf(eq, x) == ClassOf(eq, y) <==> eq(x, y)
  {
    assert y in ClassOf(eq, y);
  }

  ghost function Classes<T(!new)>(eq: (T, T) -> bool, xs: seq<T>): set<iset<T>> {
    set x | x in xs :: ClassOf(eq, x)
  }

  /** No two elements are equal. */
  ghost predicate Distinct<T>(eq: (T, T) -> bool, xs: seq<T>) {
    forall i, j :: 0 <= i < j < |xs| ==> !eq(xs[i], xs[j])
  }

  /** Every element is in the bucket of its hash. */
  ghost predicate Placed<T>(eq: (T, T) -> bool, hash: T -> uint64, buckets: map<uint64, seq<T>>) {
    forall h :: h in buckets ==> Distinct(eq, buckets[h]) && forall x :: x in buckets[h] ==> hash(x) == h
  }

  ghost function AllClasses<T(!new)>(eq: (T, T) -> bool, buckets: map<uint64, seq<T>>): set<iset<T>> {
    set h, x | h in buckets && x in buckets[h] :: ClassOf(eq, x)
  }

  /** The Go map of a hash set: a reference, which copies of the struct share. */
  class Buckets<T> {
    var lists: map<uint64, seq<T>>

    constructor (lists: map<uint64, seq<T>>)
      ensures this.lists == lists
    {
      this.lists := lists;
    }
  }

  class HashSet<T(!new)> {
    const buckets: Buckets<T>
    var size: int
    const eq: (T, T) -> bool
    const hash: T -> uint64

    /** Every element is in its bucket, once. */
    ghost predicate WellPlaced()
      reads buckets
    {
      Lawful(eq, hash) && Placed(eq, hash, buckets.lists)
    }

    ghost predicate Valid()
      reads this, buckets
    {
      WellPlaced() && size == |Model()|
    }

    /** The elements, each as the class of the values equal to it. */
    ghost function Model(): set<iset<T>>
      reads buckets
    {
      AllClasses(eq, buckets.lists)
    }

    ghost predicate SameLaws(other: HashSet<T>) { other.eq == eq && other.hash == hash }

    constructor Empty(eq: (T, T) -> bool, hash: T -> uint64)
      ensures fresh(buckets) && buckets.lists == map[] && size == 0 && this.eq == eq && this.hash == hash
      ensures Lawful(eq, hash) ==> Valid() && Model() == {}
    {
      this.eq, this.hash := eq, hash;
      buckets := new Buckets(map[]);
      size := 0;
    }

    /** Clone: buckets of its own. */
    constructor Copy(other: HashSet<T>)
      requires other.Valid()
      ensures Valid() && fresh(buckets) && Model() == other.Model() && SameLaws(other)
    {
      eq, hash := other.eq, other.hash;
      buckets := new Buckets(other.buckets.lists);
      size := other.size;
    }

    /** A copy of the struct: the same buckets, and a size of its own. */
    constructor Share(other: HashSet<T>)
      ensures buckets == other.buckets && size == other.size && SameLaws(other)
    {
      eq, hash := other.eq, other.hash;
      buckets, size := other.buckets, other.size;
    }

    /** NewHashSet. */
    constructor Of(eq: (T, T) -> bool, hash: T -> uint64, values: seq<T>)
      requires Lawful(eq, hash)
      ensures Valid() && fresh(buckets) && Model() == Classes(eq, values) && this.eq == eq && this.hash == hash
    {
      this.eq, this.hash := eq, hash;
      buckets := new Buckets(map[]);
      size := 0;
      new;
      assert Valid() && Model() == {};
      NextClass(eq, values);
      hide Lawful, Placed, AllClasses, ClassOf, Distinct, Classes;
      for i := 0 to |values|
        invariant fresh(buckets) && Valid() && Model() == Classes(eq, values[..i])
      {
        var _ := Insert(values[i]);
      }
    }

    /** Says whether the element is new. The size counts the insertions made through this struct. */
    method Insert(x: T) returns (added: bool)
      modifies this`size, buckets
      ensures added <==> !Found(eq, hash, old(buckets.lists), x)
      ensures buckets.lists == Added(eq, hash, old(buckets.lists), x)
      ensures size == old(size) + if added then 1 else 0
      ensures old(WellPlaced()) ==>
                && WellPlaced() && Model() == old(Model()) + {ClassOf(eq, x)}
                && (added <==> ClassOf(eq, x) !in old(Model()))
      ensures old(Valid()) ==> Valid()
    {
      var h := hash(x);
      var bucket := BucketOf(hash, buckets.lists, x);
      added := true;
      for i := 0 to |bucket|
        invariant buckets.lists == old(buckets.lists) && size == old(size)
        invariant added && forall k :: 0 <= k < i ==> !eq(bucket[k], x)
      {
        if eq(bucket[i], x) {
          assert Found(eq, hash, buckets.lists, x);
          added := false;
          break;
        }
      }
      if added {
        buckets.lists := buckets.lists[h := bucket + [x]];
        size := size + 1;
      }
      if old(WellPlaced()) {
        AddedToModel(eq, hash, old(buckets.lists), x);
      }
    }

    /** Says whether the element was there; the last of its bucket takes its place. */
    method Remove(x: T) returns (removed: bool)
      requires WellPlaced()
      modifies this`size, buckets
      ensures WellPlaced() && Model() == old(Model()) - {ClassOf(eq, x)}
      ensures removed <==> ClassOf(eq, x) in old(Model())
      ensures size == old(size) - if removed then 1 else 0
      ensures old(Valid()) ==> Valid()
    {
      hide Lawful, Placed, AllClasses, ClassOf, Distinct;
      var h := hash(x);
      ghost var all := if h in buckets.lists then buckets.lists[h] else [];
      if h in buckets.lists {
        var bucket := buckets.lists[h];
        for i := 0 to |bucket|
          invariant WellPlaced() && buckets.lists == old(buckets.lists) && size == old(size)
          invariant forall k :: 0 <= k < i ==> !eq(bucket[k], x)
        {
          if eq(bucket[i], x) {
            SameClass(eq, hash, bucket[i], x);
            DropFromBucket(eq, hash, buckets.lists, h, i);
            bucket := bucket[i := bucket[|bucket| - 1]];
            buckets.lists := buckets.lists[h := bucket[..|bucket| - 1]];
            size := size - 1;
            return true;
          }
        }
      }
      NotInBucket(eq, hash, buckets.lists, all, x);
      removed := false;
    }

    method Contains(x: T) returns (found: bool)
      requires WellPlaced()
      ensures found <==> ClassOf(eq, x) in Model()
    {
      var h := hash(x);
      var bucket := if h in buckets.lists then buckets.lists[h] else [];
      for i := 0 to |bucket|
        invariant forall k :: 0 <= k < i ==> !eq(bucket[k], x)
      {
        if eq(bucket[i], x) {
          SameClass(eq, hash, bucket[i], x);
          assert bucket[i] in buckets.lists[h];
          return true;
        }
      }
      NotInBucket(eq, hash, buckets.lists, bucket, x);
      found := false;
    }

    /** ToSlice, and the order of Iter: every element once, bucket by bucket in any order. */
    method ToSlice() returns (xs: seq<T>)
      requires WellPlaced()
      ensures Classes(eq, xs) == Model() && Distinct(eq, xs) && |xs| == |Model()|
      ensures forall x :: x in xs <==> x in Stored(buckets.lists)
    {
      xs := [];
      var lists := buckets.lists;
      var done: map<uint64, seq<T>>, todo := map[], lists.Keys;
      while todo != {}
        invariant todo <= lists.Keys && done == map h | h in lists && h !in todo :: lists[h]
        invariant Classes(eq, xs) == AllClasses(eq, done) && Distinct(eq, xs)
        invariant forall x :: x in xs ==> hash(x) in done
        invariant forall x :: x in xs <==> x in Stored(done)
        decreases todo
      {
        var h :| h in todo;
        AddBucket(eq, hash, done, lists[h], h, xs);
        StoredMore(done, h, lists[h]);
        xs := xs + lists[h];
        done := done[h := lists[h]];
        todo := todo - {h};
      }
      assert done == lists;
      DistinctCount(eq, hash, xs);
    }

    method Intersect(other: HashSet<T>) returns (r: HashSet<T>)
      requires WellPlaced() && other.WellPlaced() && SameLaws(other)
      ensures fresh(r) && fresh(r.buckets) && r.Valid() && r.SameLaws(this) && r.Model() == Model() * other.Model()
    {
      hide Lawful, Placed, AllClasses, ClassOf, Distinct, Classes;
      r := new HashSet.Empty(eq, hash);
      var xs := ToSlice();
      NextClass(eq, xs);
      for i := 0 to |xs|
        invariant fresh(r) && fresh(r.buckets) && r.Valid() && r.SameLaws(this)
        invariant r.Model() == Classes(eq, xs[..i]) * other.Model()
      {
        var found := other.Contains(xs[i]);
        if found {
          var _ := r.Insert(xs[i]);
        }
      }
    }

    method Union(other: HashSet<T>) returns (r: HashSet<T>)
      requires Valid() && other.WellPlaced() && SameLaws(other)
      ensures fresh(r) && fresh(r.buckets) && r.Valid() && r.SameLaws(this) && r.Model() == Model() + other.Model()
    {
      hide Lawful, Placed, AllClasses, ClassOf, Distinct, Classes;
      r := new HashSet.Copy(this);
      var xs := other.ToSlice();
      NextClass(eq, xs);
      for i := 0 to |xs|
        invariant fresh(r) && fresh(r.buckets) && r.Valid() && r.SameLaws(this)
        invariant r.Model() == Model() + Classes(eq, xs[..i])
      {
        var _ := r.Insert(xs[i]);
      }
    }

    method IsSuperSet(other: HashSet<T>) returns (r: bool)
      requires WellPlaced() && other.WellPlaced() && SameLaws(other)
      ensures r <==> Model() >= other.Model()
    {
      var xs := other.ToSlice();
      for i := 0 to |xs|
        invariant Classes(eq, xs[..i]) <= Model()
      {
        assert xs[..i + 1] == xs[..i] + [xs[i]];
        var found := Contains(xs[i]);
        if !found {
          assert ClassOf(eq, xs[i]) in Classes(eq, xs);
          return false;
        }
      }
      assert xs[..|xs|] == xs;
      r := true;
    }
  }

  /** The values in the buckets. */
  ghost function Stored<T>(lists: map<uint64, seq<T>>): set<T> {
    set h, x | h in lists && x in lists[h] :: x
  }

  /** The bucket of the hash of x. */
  function BucketOf<T>(hash: T -> uint64, lists: map<uint64, seq<T>>, x: T): seq<T> {
    if hash(x) in lists then lists[hash(x)] else []
  }

  /** What Insert looks for: an equal element in the bucket of the hash. */
  predicate Found<T>(eq: (T, T) -> bool, hash: T -> uint64, lists: map<uint64, seq<T>>, x: T) {
    exists i :: 0 <= i < |BucketOf(hash, lists, x)| && eq(BucketOf(hash, lists, x)[i], x)
  }

  function Added<T>(eq: (T, T) -> bool, hash: T -> uint64, lists: map<uint64, seq<T>>, x: T): map<uint64, seq<T>> {
    if Found(eq, hash, lists, x) then lists else lists[hash(x) := BucketOf(hash, lists, x) + [x]]
  }

  /** With lawful elements, Insert adds the element to the set and knows whether it was there. */
  lemma AddedToModel<T(!new)>(eq: (T, T) -> bool, hash: T -> uint64, lists: map<uint64, seq<T>>, x: T)
    requires Lawful(eq, hash) && Placed(eq, hash, lists)
    ensures Placed(eq, hash, Added(eq, hash, lists, x))
    ensures AllClasses(eq, Added(eq, hash, lists, x)) == AllClasses(eq, lists) + {ClassOf(eq, x)}
    ensures Found(eq, hash, lists, x) <==> ClassOf(eq, x) in AllClasses(eq, lists)
  {
    var bucket := BucketOf(hash, lists, x);
    if Found(eq, hash, lists, x) {
      var i :| 0 <= i < |bucket| && eq(bucket[i], x);
      SameClass(eq, hash, bucket[i], x);
      assert bucket[i] in lists[hash(x)];
    } else {
      NotInBucket(eq, hash, lists, bucket, x);
      AddToBucket(eq, hash, lists, bucket, x);
    }
  }

  /** Of two equal elements both are kept, and counted, exactly when they hash apart. */
  method InsertEquals<T(!new)>(eq: (T, T) -> bool, hash: T -> uint64, x: T, y: T) returns (s: HashSet<T>)
    requires eq(x, y)
    ensures fresh(s) && s.size == if hash(x) == hash(y) then 1 else 2
    ensures hash(x) != hash(y) ==> s.buckets.lists == map[hash(x) := [x], hash(y) := [y]]
  {
    AddedTwice(eq, hash, x, y);
    s := new HashSet.Empty(eq, hash);
    var _ := s.Insert(x);
    var _ := s.Insert(y);
  }

  lemma AddedTwice<T>(eq: (T, T) -> bool, hash: T -> uint64, x: T, y: T)
    requires eq(x, y)
    ensures var once := Added(eq, hash, map[], x);
            && !Found(eq, hash, map[], x) && once == map[hash(x) := [x]]
            && (Found(eq, hash, once, y) <==> hash(x) == hash(y))
            && (hash(x) != hash(y) ==> Added(eq, hash, once, y) == map[hash(x) := [x], hash(y) := [y]])
  {
    assert BucketOf(hash, map[], x) + [x] == [x];
    var once := Added(eq, hash, map[], x);
    assert once == map[hash(x) := [x]];
    assert BucketOf(hash, once, y) == if hash(x) == hash(y) then [x] else [];
    if hash(x) == hash(y) {
      assert eq(BucketOf(hash, once, y)[0], y);
    } else {
      assert BucketOf(hash, once, y) + [y] == [y];
    }
  }

  lemma StoredMore<T>(done: map<uint64, seq<T>>, h: uint64, bucket: seq<T>)
    requires h !in done
    ensures forall x :: x in Stored(done[h := bucket]) <==> x in Stored(done) || x in bucket
  {
    var all := done[h := bucket];
    forall x | x in bucket
      ensures x in Stored(all)
    {
      assert x in all[h];
    }
    forall x | x in Stored(done)
      ensures x in Stored(all)
    {
      var k :| k in done && x in done[k];
      assert x in all[k];
    }
  }

  // ---- What a clone separates and a copy of the struct shares ----

  /** A clone can be changed, and the set it was made from stays as it was. */
  method ChangeClone<T(!new)>(s: HashSet<T>, x: T, y: T) returns (c: HashSet<T>)
    requires s.Valid()
    ensures s.Valid() && s.Model() == old(s.Model())
    ensures c.Valid() && c.Model() == s.Model() + {ClassOf(s.eq, x)} - {ClassOf(s.eq, y)}
  {
    c := new HashSet.Copy(s);
    var _ := c.Insert(x);
    var _ := c.Remove(y);
  }

  /** Inserting through a copy of the struct puts the element into the original as well, whose size
      no longer tells the number of its elements exactly when the element is new. */
  method InsertShared<T(!new)>(s: HashSet<T>, x: T) returns (c: HashSet<T>, added: bool)
    requires s.Valid()
    modifies s.buckets
    ensures c.Valid() && c.buckets == s.buckets && fresh(c)
    ensures s.Model() == c.Model() == old(s.Model()) + {ClassOf(s.eq, x)} && s.size == old(s.size)
    ensures added <==> ClassOf(s.eq, x) !in old(s.Model())
    ensures s.Valid() <==> !added
  {
    c := new HashSet.Share(s);
    added := c.Insert(x);
  }

  /** The same for removing an element. */
  method RemoveShared<T(!new)>(s: HashSet<T>, x: T) returns (c: HashSet<T>, removed: bool)
    requires s.Valid()
    modifies s.buckets
    ensures c.Valid() && c.buckets == s.buckets && fresh(c)
    ensures s.Model() == c.Model() == old(s.Model()) - {ClassOf(s.eq, x)} && s.size == old(s.size)
    ensures removed <==> ClassOf(s.eq, x) in old(s.Model())
    ensures s.Valid() <==> !removed
  {
    c := new HashSet.Share(s);
    removed := c.Remove(x);
  }

  /** The classes of a list, one element at a time. */
  lemma NextClass<T(!new)>(eq: (T, T) -> bool, xs: seq<T>)
    ensures Classes(eq, xs[..0]) == {} && xs[..|xs|] == xs
    ensures forall i {:trigger xs[i]} :: 0 <= i < |xs| ==>
            Classes(eq, xs[..i + 1]) == Classes(eq, xs[..i]) + {ClassOf(eq, xs[i])}
  {
    forall i | 0 <= i < |xs|
      ensures xs[..i + 1] == xs[..i] + [xs[i]]
    {
    }
    hide ClassOf;
  }

  // ---- What one bucket says about the whole set ----

  /** An element that is not in the bucket of its hash is nowhere. */
  lemma NotInBucket<T(!new)>(eq: (T, T) -> bool, hash: T -> uint64, buckets: map<uint64, seq<T>>, bucket: seq<T>, x: T)
    requires Lawful(eq, hash) && Placed(eq, hash, buckets)
    requires bucket == if hash(x) in buckets then buckets[hash(x)] else []
    requires forall k :: 0 <= k < |bucket| ==> !eq(bucket[k], x)
    ensures ClassOf(eq, x) !in AllClasses(eq, buckets)
  {
    forall h, y | h in buckets && y in buckets[h]
      ensures ClassOf(eq, y) != ClassOf(eq, x)
    {
      SameClass(eq, hash, y, x);
    }
  }

  lemma AddToBucket<T(!new)>(eq: (T, T) -> bool, hash: T -> uint64, buckets: map<uint64, seq<T>>, bucket: seq<T>, x: T)
    requires Lawful(eq, hash) && Placed(eq, hash, buckets)
    requires bucket == if hash(x) in buckets then buckets[hash(x)] else []
    requires forall k :: 0 <= k < |bucket| ==> !eq(bucket[k], x)
    ensures var b' := buckets[hash(x) := bucket + [x]];
            Placed(eq, hash, b') && AllClasses(eq, b') == AllClasses(eq, buckets) + {ClassOf(eq, x)}
  {
    var h := hash(x);
    var b' := buckets[h := bucket + [x]];
    assert b'[h] == bucket + [x];
    assert x in b'[h];
    forall k, y | k in buckets && y in buckets[k]
      ensures k in b' && y in b'[k]
    {
    }
    forall k, y | k in b' && y in b'[k]
      ensures y == x || (k in buckets && y in buckets[k])
    {
    }
    hide ClassOf;
  }

  lemma DropFromBucket<T(!new)>(eq: (T, T) -> bool, hash: T -> uint64, buckets: map<uint64, seq<T>>, h: uint64, i: nat)
    requires Lawful(eq, hash) && Placed(eq, hash, buckets) && h in buckets && i < |buckets[h]|
    ensures var b, n := buckets[h], |buckets[h]| - 1;
            var b' := buckets[h := b[i := b[n]][..n]];
            && Placed(eq, hash, b')
            && AllClasses(eq, b') == AllClasses(eq, buckets) - {ClassOf(eq, b[i])}
            && ClassOf(eq, b[i]) in AllClasses(eq, buckets)
  {
    var b, n := buckets[h], |buckets[h]| - 1;
    var c := b[i := b[n]][..n];
    var b' := buckets[h := c];
    assert forall k :: 0 <= k < n ==> c[k] == if k == i then b[n] else b[k];
    assert Distinct(eq, b);
    assert Distinct(eq, c);
    assert forall x :: x in c ==> x in b;
    assert b[i] in buckets[h];
    forall k, y | k in b' && y in b'[k]
      ensures k in buckets && y in buckets[k] && ClassOf(eq, y) != ClassOf(eq, b[i])
    {
      SameClass(eq, hash, y, b[i]);
    }
    forall k, y | k in buckets && y in buckets[k] && ClassOf(eq, y) != ClassOf(eq, b[i])
      ensures k in b' && y in b'[k]
    {
      if k == h {
        var j :| 0 <= j < |b| && b[j] == y;
        assert c[if j == n then i else j] == y;
      }
    }
    hide ClassOf;
  }

  lemma AddBucket<T(!new)>(eq: (T, T) -> bool, hash: T -> uint64, done: map<uint64, seq<T>>, bucket: seq<T>, h: uint64,
                           xs: seq<T>)
    requires Lawful(eq, hash) && h !in done
    requires Classes(eq, xs) == AllClasses(eq, done) && Distinct(eq, xs) && Distinct(eq, bucket)
    requires (forall x :: x in xs ==> hash(x) in done) && (forall x :: x in bucket ==> hash(x) == h)
    ensures Classes(eq, xs + bucket) == AllClasses(eq, done[h := bucket]) && Distinct(eq, xs + bucket)
  {
    var ys := xs + bucket;
    forall i, j | 0 <= i < j < |ys|
      ensures !eq(ys[i], ys[j])
    {
      if i < |xs| <= j {
        assert ys[i] in xs && ys[j] in bucket;
      }
    }
    hide ClassOf;
    var all := done[h := bucket];
    forall c | c in Classes(eq, ys)
      ensures c in AllClasses(eq, all)
    {
      var x :| x in ys && c == ClassOf(eq, x);
      if x in xs {
        assert c in Classes(eq, xs);
        var k, y :| k in done && y in done[k] && c == ClassOf(eq, y);
        assert y in all[k];
      } else {
        assert x in all[h];
      }
    }
    forall c | c in AllClasses(eq, all)
      ensures c in Classes(eq, ys)
    {
      var k, y :| k in all && y in all[k] && c == ClassOf(eq, y);
      if k == h {
        assert y in ys;
      } else {
        assert y in done[k];
        assert c in Classes(eq, xs);
      }
    }
  }

  lemma {:induction false} DistinctCount<T(!new)>(eq: (T, T) -> bool, hash: T -> uint64, xs: seq<T>)
    requires Lawful(eq, hash) && Distinct(eq, xs)
    ensures |Classes(eq, xs)| == |xs|
    decreases |xs|
  {
    if xs != [] {
      var n := |xs| - 1;
      var front := xs[..n];
      DistinctCount(eq, hash, front);
      forall x | x in front
        ensures ClassOf(eq, x) != ClassOf(eq, xs[n])
      {
        var i :| 0 <= i < n && xs[i] == x;
        SameClass(eq, hash, x, xs[n]);
      }
      assert xs == front + [xs[n]];
      assert Classes(eq, xs) == Classes(eq, front) + {ClassOf(eq, xs[n])};
    } else {
      assert Classes(eq, xs) == {};
    }
  }
}
