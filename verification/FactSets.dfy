/** FactSet of datalog/datalog.go: hash sets of facts kept under the keys of their origins. */
module FactSets {
  import opened Types
  import opened Origins
  import opened HashSets

  type Keyed<S(==)> = map<string, set<Fact<S>>>

  /** Every key is the key of an origin with at least one block. */
  ghost predicate Canonical<S>(sets: Keyed<S>) {
    forall k :: k in sets ==> Decoded(k).Some? && k == Encoding(Decoded(k).value)
  }

  function Pairs<S>(origin: Origin, facts: set<Fact<S>>): set<OriginFact<S>> {
    set f | f in facts :: OriginFact(origin, f)
  }

  function WithMore<S>(sets: Keyed<S>, key: string, more: set<Fact<S>>): Keyed<S> {
    sets[key := if key in sets then sets[key] + more else more]
  }

  /** The facts with their origins. */
  ghost function ViewOf<S>(sets: Keyed<S>): set<OriginFact<S>> {
    set k, f | k in sets && Decoded(k).Some? && f in sets[k] :: OriginFact(Decoded(k).value, f)
  }

  // ---- Hash sets of facts ----

  /** Facts are equal when they are the same value. */
  predicate SameFact<S(==)>(x: Fact<S>, y: Fact<S>) { x == y }

  /** What a hash set holds: whether its buckets are in order, the facts in them, and its size field. */
  datatype Slot<S(==)> = Slot(formed: bool, facts: set<Fact<S>>, size: int)

  ghost function SlotOf<S(!new)>(s: HashSet<Fact<S>>, hash: Fact<S> -> uint64): Slot<S>
    reads s, s.buckets
  {
    Slot(s.eq == SameFact<S> && s.hash == hash && s.WellPlaced(), Stored(s.buckets.lists), s.size)
  }

  /** The size is the number of the facts. */
  predicate Right<S>(slot: Slot<S>) { slot.formed && slot.size == |slot.facts| }

  /** One more fact, counted if it is new. */
  function With<S>(slot: Slot<S>, fact: Fact<S>): Slot<S> {
    if fact in slot.facts then slot else Slot(slot.formed, slot.facts + {fact}, slot.size + 1)
  }

  method NewFacts<S(==,!new)>(hash: Fact<S> -> uint64, facts: seq<Fact<S>>) returns (s: HashSet<Fact<S>>)
    ensures fresh(s) && fresh(s.buckets) && Right(SlotOf(s, hash)) && SlotOf(s, hash).facts == set f | f in facts
  {
    hide Stored, ClassOf, Lawful, Placed, AllClasses, Classes;
    SameFactIsLawful(hash);
    s := new HashSet.Of(SameFact<S>, hash, facts);
    StoredOnly(s.buckets.lists, facts);
    ClassesCount(s.buckets.lists);
  }

  method CloneFacts<S(==,!new)>(s: HashSet<Fact<S>>, ghost hash: Fact<S> -> uint64) returns (c: HashSet<Fact<S>>)
    requires Right(SlotOf(s, hash))
    ensures fresh(c) && fresh(c.buckets) && SlotOf(c, hash) == SlotOf(s, hash)
  {
    hide Stored, ClassOf, Lawful, Placed, AllClasses, Classes;
    ClassesCount(s.buckets.lists);
    c := new HashSet.Copy(s);
    SameStored(s.buckets.lists, c.buckets.lists);
  }

  method InsertFact<S(==,!new)>(s: HashSet<Fact<S>>, fact: Fact<S>, ghost hash: Fact<S> -> uint64)
      returns (added: bool)
    requires SlotOf(s, hash).formed
    modifies s, s.buckets
    ensures SlotOf(s, hash) == With(old(SlotOf(s, hash)), fact) && (added <==> fact !in old(SlotOf(s, hash)).facts)
  {
    hide Stored, ClassOf, Lawful, Placed, AllClasses, Classes;
    StoredByClass(s.buckets.lists);
    added := s.Insert(fact);
    OneClassMore(old(s.buckets.lists), s.buckets.lists, fact);
  }

  method UnionFacts<S(==,!new)>(s: HashSet<Fact<S>>, t: HashSet<Fact<S>>, ghost hash: Fact<S> -> uint64)
      returns (r: HashSet<Fact<S>>)
    requires Right(SlotOf(s, hash)) && Right(SlotOf(t, hash))
    ensures fresh(r) && fresh(r.buckets) && Right(SlotOf(r, hash))
    ensures SlotOf(r, hash).facts == SlotOf(s, hash).facts + SlotOf(t, hash).facts
  {
    hide Stored, ClassOf, Lawful, Placed, AllClasses, Classes;
    ClassesCount(s.buckets.lists);
    r := s.Union(t);
    ClassesCount(r.buckets.lists);
    StoredUnion(r.buckets.lists, s.buckets.lists, t.buckets.lists);
  }

  // ---- Fact sets ----

  type Slots<S(==)> = map<string, Slot<S>>

  ghost function FactsIn<S>(slots: Slots<S>): Keyed<S> {
    map k | k in slots :: slots[k].facts
  }

  ghost predicate AllRight<S>(slots: Slots<S>) {
    Canonical(FactsIn(slots)) && forall k :: k in slots ==> Right(slots[k])
  }

  ghost function Sizes<S>(slots: Slots<S>): map<string, int> {
    map k | k in slots :: slots[k].size
  }

  /** What is kept under a key, nothing if there is no such key. */
  ghost function At<S>(slots: Slots<S>, key: string): Slot<S> {
    if key in slots then slots[key] else Slot(true, {}, 0)
  }

  ghost function Inserted<S>(slots: Slots<S>, key: string, fact: Fact<S>): Slots<S> {
    slots[key := With(At(slots, key), fact)]
  }

  /** More facts under the key of an origin are just these facts with this origin. */
  lemma MoreUnderKey<S>(slots: Slots<S>, origin: Origin, slot: Slot<S>, more: set<Fact<S>>)
    requires AllRight(slots) && origin != {} && Right(slot)
    requires slot.facts == At(slots, Encoding(origin)).facts + more
    ensures var slots' := slots[Encoding(origin) := slot];
            AllRight(slots') && ViewOf(FactsIn(slots')) == ViewOf(FactsIn(slots)) + Pairs(origin, more)
  {
    hide Encoding, ViewOf, Canonical, Pairs;
    AddedUnderKey(FactsIn(slots), origin, more);
    assert FactsIn(slots[Encoding(origin) := slot]) == WithMore(FactsIn(slots), Encoding(origin), more);
  }

  lemma OneUnderKey<S>(slots: Slots<S>, origin: Origin, fact: Fact<S>)
    requires AllRight(slots) && origin != {}
    ensures var slots' := Inserted(slots, Encoding(origin), fact);
            AllRight(slots') && ViewOf(FactsIn(slots')) == ViewOf(FactsIn(slots)) + {OriginFact(origin, fact)}
    ensures OriginFact(origin, fact) in ViewOf(FactsIn(slots)) <==> fact in At(slots, Encoding(origin)).facts
  {
    hide Encoding, ViewOf, Canonical;
    var slot := At(slots, Encoding(origin));
    assert Right(With(slot, fact)) && With(slot, fact).facts == slot.facts + {fact};
    MoreUnderKey(slots, origin, With(slot, fact), {fact});
    InViewIff(FactsIn(slots), origin, fact);
  }

  /** The slots of the trusted origins. */
  ghost function Trusted<S>(slots: Slots<S>, trusted: Origin): Slots<S> {
    map k | k in slots && Decoded(k).Some? && Decoded(k).value <= trusted :: slots[k]
  }

  function Within<S>(facts: set<OriginFact<S>>, trusted: Origin): set<OriginFact<S>> {
    set f | f in facts && f.origin <= trusted
  }

  lemma TrustedView<S>(slots: Slots<S>, trusted: Origin)
    requires AllRight(slots)
    ensures AllRight(Trusted(slots, trusted))
    ensures ViewOf(FactsIn(Trusted(slots, trusted))) == Within(ViewOf(FactsIn(slots)), trusted)
  {
    hide Encoding, Decoded;
    var some := Trusted(slots, trusted);
    forall k, f | k in slots && f in slots[k].facts && Decoded(k).value <= trusted
      ensures k in some && f in FactsIn(some)[k]
    {
    }
    forall k, f | k in some && f in some[k].facts
      ensures f in FactsIn(slots)[k]
    {
    }
  }

  /** The facts kept under each key. */
  class FactSet<S(==,!new)> {
    var sets: map<string, HashSet<Fact<S>>>
    const hash: Fact<S> -> uint64

    ghost function Structs(): set<object>
      reads this
    {
      set k | k in sets :: sets[k] as object
    }

    ghost function AllBuckets(): set<object>
      reads this
    {
      set k | k in sets :: sets[k].buckets as object
    }

    /** No two keys share a hash set or its buckets. */
    ghost predicate Separate()
      reads this
    {
      forall j, k :: j in sets && k in sets && j != k ==> sets[j] != sets[k] && sets[j].buckets != sets[k].buckets
    }

    ghost function Kept(): (slots: Slots<S>)
      reads this, Structs(), AllBuckets()
      ensures slots.Keys == sets.Keys
    {
      map k | k in sets :: SlotOf(sets[k], hash)
    }

    ghost predicate Valid()
      reads this, Structs(), AllBuckets()
    {
      Separate() && AllRight(Kept())
    }

    ghost function View(): set<OriginFact<S>>
      reads this, Structs(), AllBuckets()
    {
      ViewOf(FactsIn(Kept()))
    }

    lemma KeptAt(key: string)
      requires key in sets
      ensures key in Kept() && Kept()[key] == SlotOf(sets[key], hash)
      ensures sets[key] in Structs() && sets[key].buckets in AllBuckets()
      ensures AllRight(Kept()) ==> Right(Kept()[key]) && Kept()[key].formed
      ensures AllRight(Kept()) ==> sets[key].eq == SameFact<S> && sets[key].hash == hash
    {
    }

    lemma KeptIs(slots: Slots<S>)
      requires slots.Keys == sets.Keys && forall k :: k in sets ==> slots[k] == SlotOf(sets[k], hash)
      ensures Kept() == slots
    {
    }

    lemma NoSets()
      requires sets == map[]
      ensures Separate() && Structs() == {} && AllBuckets() == {} && Kept() == map[]
    {
    }

    lemma Outside(fs: FactSet<S>)
      ensures fs as object !in Structs() && fs as object !in AllBuckets()
    {
    }

    lemma OtherKind(s: HashSet<Fact<S>>)
      ensures s as object !in AllBuckets() && s.buckets as object !in Structs()
    {
    }

    ghost predicate Includes(some: map<string, HashSet<Fact<S>>>)
      reads this
    {
      forall k :: k in some ==> k in sets && sets[k] == some[k]
    }

    constructor Empty(hash: Fact<S> -> uint64)
      ensures Valid() && sets == map[] && View() == {} && this.hash == hash
    {
      this.hash := hash;
      sets := map[];
    }

    /** Adds a fact to the hash set under a key, in place. */
    method AddTo(key: string, fact: Fact<S>) returns (isNew: bool)
      requires Separate() && key in sets && SlotOf(sets[key], hash).formed
      modifies sets[key], sets[key].buckets
      ensures Kept() == old(Kept())[key := With(old(Kept())[key], fact)]
      ensures isNew <==> fact !in old(Kept())[key].facts
    {
      hide SlotOf, With, Kept;
      forall k | k in sets
        ensures Kept()[k] == SlotOf(sets[k], hash)
      {
        KeptAt(k);
      }
      ghost var slots := Kept()[key := With(Kept()[key], fact)];
      isNew := InsertFact(sets[key], fact, hash);
      KeptIs(slots);
    }

    /** Puts a hash set under a key. */
    method Put(key: string, s: HashSet<Fact<S>>)
      requires Separate() && s !in Structs() && s.buckets !in AllBuckets()
      modifies this`sets
      ensures Separate() && sets == old(sets)[key := s]
      ensures Structs() <= old(Structs()) + {s} && AllBuckets() <= old(AllBuckets()) + {s.buckets}
      ensures Kept() == old(Kept()[key := SlotOf(s, hash)])
    {
      hide SlotOf, Kept;
      forall k | k in sets
        ensures sets[k] in Structs() && sets[k].buckets in AllBuckets() && Kept()[k] == SlotOf(sets[k], hash)
      {
        KeptAt(k);
      }
      ghost var slots := Kept()[key := SlotOf(s, hash)];
      sets := sets[key := s];
      KeptIs(slots);
    }

    /** Clone: every hash set is cloned. */
    constructor Copy(other: FactSet<S>)
      requires other.Valid()
      ensures Valid() && Kept() == other.Kept() && hash == other.hash
      ensures fresh(Structs()) && fresh(AllBuckets())
    {
      hide SlotOf, AllRight, Right, FactsIn, Kept, Separate, Structs, AllBuckets;
      ghost var all := other.Kept();
      assert allocated(other.Structs()) && allocated(other.AllBuckets());
      hash := other.hash;
      sets := map[];
      new;
      assert other.Kept() == all;
      NoSets();
      NoneLeft(all);
      var todo := other.sets.Keys;
      while todo != {}
        invariant todo <= other.sets.Keys && Separate() && other.Kept() == all
        invariant fresh(Structs()) && fresh(AllBuckets())
        invariant Kept() == all - todo
        decreases todo
      {
        var k :| k in todo;
        CloneKey(other, k);
        NextSlot(all, todo, k);
        todo := todo - {k};
      }
      assert all - todo == all;
    }

    /** Puts a clone of the hash set of a key under the same key. */
    method CloneKey(other: FactSet<S>, k: string)
      requires Separate() && other != this && other.hash == hash && k in other.sets && AllRight(other.Kept())
      modifies this`sets
      ensures Separate() && Kept() == old(Kept()[k := other.Kept()[k]]) && other.Kept() == old(other.Kept())
      ensures forall s :: s in Structs() ==> s in old(Structs()) || fresh(s)
      ensures forall b :: b in AllBuckets() ==> b in old(AllBuckets()) || fresh(b)
    {
      hide SlotOf, AllRight, Right, FactsIn, Kept, Separate, Structs, AllBuckets;
      ghost var all, kept := other.Kept(), Kept();
      assert allocated(Structs()) && allocated(AllBuckets());
      assert allocated(other.Structs()) && allocated(other.AllBuckets());
      other.KeptAt(k);
      var s := CloneFacts(other.sets[k], hash);
      assert Kept() == kept && other.Kept() == all;
      other.Outside(this);
      Put(k, s);
      assert other.Kept() == all;
    }

    /** Says whether the fact was not there with this origin. Where facts of the origin are
        kept already, it is added to them in place. */
    method InsertNew(origin: Origin, fact: Fact<S>) returns (isNew: bool)
      requires Valid() && origin != {}
      modifies this, Structs(), AllBuckets()
      ensures Valid() && View() == old(View()) + {OriginFact(origin, fact)}
      ensures isNew <==> OriginFact(origin, fact) !in old(View())
      ensures Includes(old(sets))
      ensures Kept() == Inserted(old(Kept()), Encoding(origin), fact)
    {
      hide SlotOf, ViewOf, Canonical, Encoding, With, FactsIn, AllRight, Right, Kept,
           Separate, Structs, AllBuckets;
      ghost var slots := Kept();
      assert allocated(Structs()) && allocated(AllBuckets());
      var key := EncodeToString(origin);
      OneUnderKey(Kept(), origin, fact);
      if key in sets {
        KeptAt(key);
        isNew := AddTo(key, fact);
      } else {
        var s := NewFacts(hash, [fact]);
        assert (set f | f in [fact]) == {fact};
        OnlyFact(SlotOf(s, hash), fact);
        assert Kept() == slots;
        Put(key, s);
        isNew := true;
      }
    }

    method Insert(origin: Origin, fact: Fact<S>)
      requires Valid() && origin != {}
      modifies this, Structs(), AllBuckets()
      ensures Valid() && View() == old(View()) + {OriginFact(origin, fact)}
      ensures Includes(old(sets))
      ensures Kept() == Inserted(old(Kept()), Encoding(origin), fact)
    {
      var _ := InsertNew(origin, fact);
    }

    /** The facts of the origin move to a new hash set; the old one stays as it is. */
    method InsertMulti(origin: Origin, facts: seq<Fact<S>>)
      requires Valid() && origin != {}
      modifies this`sets
      ensures Valid() && View() == old(View()) + Pairs(origin, set f | f in facts)
    {
      hide SlotOf, ViewOf, Canonical, Encoding, FactsIn, AllRight, Right, Kept, Separate, Structs, AllBuckets, Pairs;
      ghost var slots, more := Kept(), set f | f in facts;
      assert allocated(Structs()) && allocated(AllBuckets());
      var key := EncodeToString(origin);
      var s := Joined(key, facts);
      MoreUnderKey(slots, origin, SlotOf(s, hash), more);
      assert Kept() == slots;
      Put(key, s);
    }

    /** A new hash set of the facts under a key and some more. */
    method Joined(key: string, facts: seq<Fact<S>>) returns (s: HashSet<Fact<S>>)
      requires Valid()
      ensures fresh(s) && fresh(s.buckets) && Right(SlotOf(s, hash))
      ensures SlotOf(s, hash).facts == At(Kept(), key).facts + set f | f in facts
    {
      hide SlotOf, AllRight, Right, Kept, Separate, Structs, AllBuckets;
      ghost var slots := Kept();
      assert allocated(Structs()) && allocated(AllBuckets());
      s := NewFacts(hash, facts);
      assert Kept() == slots;
      if key in sets {
        KeptAt(key);
        s := UnionFacts(sets[key], s, hash);
        assert Kept() == slots;
      }
    }

    /** WithOrigin: the facts whose origin lies within the trusted one. The new fact set holds
        copies of the structs, which share their buckets with the old one. */
    method WithOrigin(trusted: Origin) returns (r: FactSet<S>)
      requires Valid()
      ensures fresh(r) && fresh(r.Structs()) && r.hash == hash
      ensures SharedWith(r.sets)
      ensures r.Kept() == Trusted(Kept(), trusted)
      ensures r.Valid() && r.View() == Within(View(), trusted)
    {
      hide SlotOf, Canonical, ViewOf, Encoding, Decoded, Within, FactsIn, AllRight, Kept, Structs, AllBuckets, Trusted,
           Separate;
      ghost var slots := Kept();
      TrustedView(slots, trusted);
      assert allocated(Structs()) && allocated(AllBuckets());
      r := new FactSet.Empty(hash);
      assert Kept() == slots;
      r.NoSets();
      NoneTrusted(slots, trusted);
      var todo := sets.Keys;
      while todo != {}
        invariant todo <= sets.Keys && fresh(r) && r.hash == hash && r.Separate() && r.sets.Keys !! todo
        invariant fresh(r.Structs()) && SharedWith(r.sets)
        invariant r.Kept() == Trusted(slots - todo, trusted) && Kept() == slots
        decreases todo
      {
        var k :| k in todo;
        KeyDecodes(slots, k);
        ShareIfTrusted(r, k, trusted);
        TrustNext(slots, todo, k, trusted);
        todo := todo - {k};
      }
      assert slots - todo == slots;
    }

    /** Puts a copy of the struct of a key into r, if its origin is trusted. */
    method ShareIfTrusted(r: FactSet<S>, k: string, trusted: Origin)
      requires Separate() && r.Separate() && r != this && r.hash == hash && SharedWith(r.sets)
      requires k in sets && k !in r.sets && Decoded(k).Some? && Encoding(Decoded(k).value) == k
      modifies r`sets
      ensures r.Separate() && SharedWith(r.sets) && r.sets.Keys <= old(r.sets.Keys) + {k}
      ensures forall s :: s in r.Structs() ==> s in old(r.Structs()) || fresh(s)
      ensures r.Kept() == old(if Decoded(k).value <= trusted then r.Kept()[k := Kept()[k]] else r.Kept())
      ensures Kept() == old(Kept())
    {
      hide SlotOf, Kept, Structs, AllBuckets, Separate, SharedWith, Decoded, Encoding;
      ghost var slots, kept := Kept(), r.Kept();
      assert allocated(Structs()) && allocated(AllBuckets()) && allocated(r.Structs()) && allocated(r.AllBuckets());
      var o := NewOriginFromString(k);
      if o.Some? && o.value <= trusted {
        var key := EncodeToString(o.value);
        var s := new HashSet.Share(sets[k]);
        assert r.Kept() == kept && Kept() == slots;
        KeptAt(k);
        SharedNext(r.sets, k, s);
        Outside(r);
        SharedSlot(sets[k], s, hash);
        NotYetShared(r, k);
        r.Put(key, s);
        assert Kept() == slots;
      } else {
        assert r.Kept() == kept && Kept() == slots;
      }
    }

    /** Hash sets that share their buckets with the ones here. */
    ghost predicate SharedWith(some: map<string, HashSet<Fact<S>>>)
      reads this
    {
      forall k :: k in some ==> k in sets && some[k].buckets == sets[k].buckets
    }

    /** The hash sets of v are copies of structs kept here, with the same buckets and sizes. */
    ghost predicate Shows(v: FactSet<S>)
      reads this, Structs(), AllBuckets(), v, v.Structs(), v.AllBuckets()
    {
      && SharedWith(v.sets) && Structs() !! v.Structs()
      && forall k :: k in v.sets ==> SlotOf(v.sets[k], hash) == SlotOf(sets[k], hash)
    }

    lemma FilteredShows(v: FactSet<S>, trusted: Origin)
      requires SharedWith(v.sets) && Structs() !! v.Structs() && v.hash == hash
      requires v.Kept() == Trusted(Kept(), trusted)
      ensures Shows(v)
    {
      hide SlotOf, Decoded;
      forall k | k in v.sets
        ensures SlotOf(v.sets[k], hash) == SlotOf(sets[k], hash)
      {
        KeptAt(k);
        v.KeptAt(k);
      }
    }

    /** What a key has to do with a fact set that shows some of the facts. */
    lemma ShowsAt(v: FactSet<S>, k: string)
      requires Valid() && Shows(v) && v.hash == hash && k in sets
      ensures var s := sets[k];
              && Kept()[k] == SlotOf(s, hash) && Kept()[k].formed && Kept()[k].size == s.size
              && s.eq == SameFact<S> && s.hash == hash
              && s !in v.Structs() && s as object !in v.AllBuckets() && s.buckets as object !in v.Structs()
              && (if k in v.sets then v.sets[k].buckets == s.buckets && v.Kept()[k] == Kept()[k]
                  else s.buckets !in v.AllBuckets())
    {
      hide SlotOf, AllRight;
      KeptAt(k);
      SizeOf(sets[k], hash);
      v.OtherKind(sets[k]);
      if k !in v.sets {
        NotYetShared(v, k);
      }
    }

    lemma SharedInside(v: FactSet<S>)
      requires SharedWith(v.sets)
      ensures v.AllBuckets() <= AllBuckets()
    {
    }

    lemma SharedNext(some: map<string, HashSet<Fact<S>>>, k: string, s: HashSet<Fact<S>>)
      requires SharedWith(some) && k in sets && s.buckets == sets[k].buckets
      ensures SharedWith(some[k := s])
    {
    }

    lemma NotYetShared(r: FactSet<S>, k: string)
      requires Separate() && SharedWith(r.sets) && k in sets && k !in r.sets
      ensures sets[k].buckets !in r.AllBuckets()
    {
    }

    ghost function Counted(): int
      reads this, Structs(), AllBuckets()
    {
      Sum(Sizes(Kept()))
    }

    /** Count: the sizes of all the hash sets together. */
    method Count() returns (count: int)
      ensures count == Counted()
      ensures Valid() ==> count == |View()|
    {
      hide SlotOf, ViewOf, Canonical, FactsIn, AllRight, Right, Kept, Separate, Structs, AllBuckets;
      count := 0;
      ghost var sizes := Sizes(Kept());
      var todo := sets.Keys;
      KeepAll(sizes, todo);
      while todo != {}
        invariant sizes == Sizes(Kept())
        invariant todo <= sets.Keys && count + Sum(Keep(sizes, todo)) == Sum(sizes)
        decreases todo
      {
        var k :| k in todo;
        SumStep(sizes, todo, k);
        KeptAt(k);
        SizeOf(sets[k], hash);
        count := count + sets[k].size;
        todo := todo - {k};
      }
      KeepNone(sizes);
      if Valid() {
        RightSizes(Kept());
      }
    }
  }

  // ---- Inserting into a filtered fact set ----

  /** The facts of an origin with one more among them that is not counted. */
  ghost function Uncounted<S>(slots: Slots<S>, key: string, fact: Fact<S>, shown: bool): Slots<S> {
    if shown && key in slots then
      var slot := slots[key];
      slots[key := Slot(slot.formed, slot.facts + {fact}, slot.size)]
    else slots
  }

  lemma UncountedAt<S>(slots: Slots<S>, origin: Origin, fact: Fact<S>)
    requires AllRight(slots) && origin != {} && Encoding(origin) in slots
    ensures var slots' := Uncounted(slots, Encoding(origin), fact, true);
            && ViewOf(FactsIn(slots')) == ViewOf(FactsIn(slots)) + {OriginFact(origin, fact)}
            && (AllRight(slots') <==> OriginFact(origin, fact) in ViewOf(FactsIn(slots)))
            && Sizes(slots') == Sizes(slots)
  {
    hide Encoding, ViewOf, Canonical;
    var key := Encoding(origin);
    var slots' := Uncounted(slots, key, fact, true);
    OneUnderKey(slots, origin, fact);
    var more := slots[key := With(slots[key], fact)];
    assert slots'[key].facts == more[key].facts;
    assert FactsIn(slots') == FactsIn(more);
    CountWith(slots[key].facts, fact);
    assert slots'[key].facts == slots[key].facts + {fact};
    assert Right(slots[key]);
    if AllRight(slots') {
      assert Right(slots'[key]);
    }
  }

  lemma UncountedIsWrong<S>(slots: Slots<S>, origin: Origin, fact: Fact<S>, shown: bool)
    requires AllRight(slots) && origin != {}
    ensures var slots' := Uncounted(slots, Encoding(origin), fact, shown);
            var inPlace := shown && Encoding(origin) in slots;
            && ViewOf(FactsIn(slots')) == ViewOf(FactsIn(slots)) + (if inPlace then {OriginFact(origin, fact)} else {})
            && (AllRight(slots') <==> !inPlace || OriginFact(origin, fact) in ViewOf(FactsIn(slots)))
            && Sizes(slots') == Sizes(slots)
  {
    hide Encoding, ViewOf, FactsIn, AllRight, Sizes;
    if shown && Encoding(origin) in slots {
      UncountedAt(slots, origin, fact);
    }
  }

  /** What a struct shows when the fact was inserted, or not, through another one with the same buckets. */
  lemma SharedBuckets<S(!new)>(s: HashSet<Fact<S>>, t: HashSet<Fact<S>>, hash: Fact<S> -> uint64, slot: Slot<S>,
                               fact: Fact<S>, inserted: bool)
    requires t.buckets == s.buckets && s.eq == SameFact<S> && s.hash == hash && slot.formed && s.size == slot.size
    requires SlotOf(t, hash) == if inserted then With(slot, fact) else slot
    ensures SlotOf(s, hash) == if inserted then Slot(true, slot.facts + {fact}, slot.size) else slot
  {
    assert With(slot, fact).facts == slot.facts + {fact};
  }

  /** Inserting into a fact set that shares buckets with another one. */
  method InsertThrough<S(==,!new)>(fs: FactSet<S>, v: FactSet<S>, origin: Origin, fact: Fact<S>)
    requires fs.Valid() && v.Valid() && origin != {} && fs != v && fs.hash == v.hash && fs.Shows(v)
    modifies v, v.Structs(), v.AllBuckets()
    ensures v.Valid() && v.View() == old(v.View()) + {OriginFact(origin, fact)}
    ensures fs.Separate()
    ensures fs.Kept() == Uncounted(old(fs.Kept()), Encoding(origin), fact, Encoding(origin) in old(v.sets))
  {
    hide SlotOf, ViewOf, Canonical, Encoding, FactsIn, AllRight, Right, With, FactSet.Kept, FactSet.Separate,
         FactSet.Structs, FactSet.AllBuckets, FactSet.Shows, FactSet.SharedWith;
    ghost var key, shared, slots := Encoding(origin), v.sets, fs.Kept();
    ghost var slots' := Uncounted(slots, key, fact, key in shared);
    forall k | k in fs.sets
      ensures var s := fs.sets[k];
              && slots[k] == SlotOf(s, fs.hash) && slots[k].formed && slots[k].size == s.size
              && s.eq == SameFact<S> && s.hash == fs.hash
              && s !in v.Structs() && s as object !in v.AllBuckets() && s.buckets as object !in v.Structs()
              && (if k in v.sets then v.sets[k].buckets == s.buckets && v.Kept()[k] == slots[k]
                  else s.buckets !in v.AllBuckets())
    {
      fs.ShowsAt(v, k);
    }
    fs.Outside(v);
    v.Outside(fs);
    v.Insert(origin, fact);
    forall k | k in fs.sets
      ensures SlotOf(fs.sets[k], fs.hash) == slots'[k]
    {
      if k in shared {
        v.KeptAt(k);
        SharedBuckets(fs.sets[k], v.sets[k], fs.hash, slots[k], fact, k == key);
      }
    }
    fs.KeptIs(slots');
  }

  /** Inserting into a filtered fact set, under an origin it keeps facts of, reaches the fact set it was filtered
      from: that one then holds the fact, but does not count it. It stays right exactly when the filtered
      set keeps no facts of that origin, or the fact was there before. */
  method InsertFiltered<S(==,!new)>(fs: FactSet<S>, trusted: Origin, origin: Origin, fact: Fact<S>)
      returns (v: FactSet<S>)
    requires fs.Valid() && origin != {}
    modifies fs.AllBuckets()
    ensures v.Valid() && v.View() == Within(old(fs.View()), trusted) + {OriginFact(origin, fact)}
    ensures var inPlace := Encoding(origin) in fs.sets && origin <= trusted;
            && fs.View() == old(fs.View()) + (if inPlace then {OriginFact(origin, fact)} else {})
            && fs.Counted() == |old(fs.View())|
            && (fs.Valid() <==> !inPlace || OriginFact(origin, fact) in old(fs.View()))
  {
    hide SlotOf, ViewOf, Canonical, Encoding, Decoded, With, FactsIn, AllRight, Right, Trusted, Within,
         Uncounted, Sizes, FactSet.Kept, FactSet.Separate, FactSet.Structs, FactSet.AllBuckets, FactSet.SharedWith,
         FactSet.Shows;
    ghost var slots, key := fs.Kept(), Encoding(origin);
    assert allocated(fs.Structs()) && allocated(fs.AllBuckets());
    v := fs.WithOrigin(trusted);
    assert fs.Kept() == slots;
    KeyTrusted(slots, origin, trusted);
    fs.FilteredShows(v, trusted);
    fs.SharedInside(v);
    v.Outside(fs);
    InsertThrough(fs, v, origin, fact);
    UncountedIsWrong(slots, origin, fact, key in slots && origin <= trusted);
    RightSizes(slots);
  }

  /** InsertMulti is safe there: it puts a new hash set under the key. */
  method InsertMultiFiltered<S(==,!new)>(fs: FactSet<S>, trusted: Origin, origin: Origin, facts: seq<Fact<S>>)
      returns (v: FactSet<S>)
    requires fs.Valid() && origin != {}
    ensures fs.Valid() && fs.View() == old(fs.View())
    ensures v.Valid() && v.View() == Within(fs.View(), trusted) + Pairs(origin, set f | f in facts)
  {
    hide SlotOf, ViewOf, Canonical, Encoding, Pairs, AllRight, Trusted, Within, FactsIn,
         FactSet.Kept, FactSet.Separate, FactSet.Structs, FactSet.AllBuckets, FactSet.SharedWith;
    ghost var slots := fs.Kept();
    assert allocated(fs.Structs()) && allocated(fs.AllBuckets());
    v := fs.WithOrigin(trusted);
    v.InsertMulti(origin, facts);
    assert fs.Kept() == slots;
  }

  /** Inserting into a clone leaves the fact set it was made from as it was. */
  method InsertCloned<S(==,!new)>(fs: FactSet<S>, origin: Origin, fact: Fact<S>) returns (c: FactSet<S>)
    requires fs.Valid() && origin != {}
    ensures fs.Valid() && fs.View() == old(fs.View())
    ensures c.Valid() && c.View() == fs.View() + {OriginFact(origin, fact)}
  {
    hide SlotOf, ViewOf, Canonical, Encoding, AllRight, FactsIn,
         FactSet.Kept, FactSet.Separate, FactSet.Structs, FactSet.AllBuckets;
    ghost var slots := fs.Kept();
    assert allocated(fs.Structs()) && allocated(fs.AllBuckets());
    c := new FactSet.Copy(fs);
    assert fs.Kept() == slots;
    c.Insert(origin, fact);
    assert fs.Kept() == slots;
  }

  // ---- What is kept, key by key ----

  lemma KeyDecodes<S>(slots: Slots<S>, k: string)
    requires AllRight(slots) && k in slots
    ensures Decoded(k).Some? && Encoding(Decoded(k).value) == k
  {
    assert k in FactsIn(slots);
  }

  lemma SizeOf<S(!new)>(s: HashSet<Fact<S>>, hash: Fact<S> -> uint64)
    ensures SlotOf(s, hash).size == s.size
  {
  }

  lemma SharedSlot<S(!new)>(s: HashSet<Fact<S>>, t: HashSet<Fact<S>>, hash: Fact<S> -> uint64)
    requires t.buckets == s.buckets && t.size == s.size && t.SameLaws(s)
    ensures SlotOf(t, hash) == SlotOf(s, hash)
  {
  }

  lemma OnlyFact<S>(slot: Slot<S>, fact: Fact<S>)
    requires Right(slot) && slot.facts == {fact}
    ensures slot == With(Slot(true, {}, 0), fact)
  {
  }

  lemma NoneLeft<S>(slots: Slots<S>)
    ensures slots - slots.Keys == map[]
  {
  }

  lemma NextSlot<S>(slots: Slots<S>, todo: set<string>, k: string)
    requires k in slots && k in todo
    ensures slots - (todo - {k}) == (slots - todo)[k := slots[k]]
  {
  }

  lemma NoneTrusted<S>(slots: Slots<S>, trusted: Origin)
    ensures Trusted(slots - slots.Keys, trusted) == map[]
  {
  }

  /** One turn of the loop of WithOrigin. */
  lemma TrustNext<S>(slots: Slots<S>, todo: set<string>, k: string, trusted: Origin)
    requires k in slots && k in todo && Decoded(k).Some?
    ensures Trusted(slots - (todo - {k}), trusted) ==
      var before := Trusted(slots - todo, trusted);
      if Decoded(k).value <= trusted then before[k := slots[k]] else before
  {
    hide Decoded;
  }

  lemma RightSizes<S>(slots: Slots<S>)
    requires AllRight(slots)
    ensures Sum(Sizes(slots)) == |ViewOf(FactsIn(slots))|
  {
    hide ViewOf, Canonical, Sum;
    SumIsCount(FactsIn(slots), Sizes(slots));
  }

  lemma KeyTrusted<S>(slots: Slots<S>, origin: Origin, trusted: Origin)
    requires origin != {}
    ensures Encoding(origin) in Trusted(slots, trusted) <==> Encoding(origin) in slots && origin <= trusted
  {
    EncodingDecodes(origin);
    hide Encoding, Decoded;
  }

  // ---- Facts as elements of hash sets ----

  lemma SameFactIsLawful<S(!new)>(hash: Fact<S> -> uint64)
    ensures Lawful(SameFact<S>, hash)
  {
  }

  /** A fact is stored exactly when its class is among the classes. */
  lemma StoredByClass<S(!new)>(lists: map<uint64, seq<Fact<S>>>)
    ensures forall f :: f in Stored(lists) <==> ClassOf(SameFact<S>, f) in AllClasses(SameFact<S>, lists)
  {
    forall f | ClassOf(SameFact<S>, f) in AllClasses(SameFact<S>, lists)
      ensures f in Stored(lists)
    {
      var h, x :| h in lists && x in lists[h] && ClassOf(SameFact<S>, x) == ClassOf(SameFact<S>, f);
      assert f in ClassOf(SameFact<S>, f);
      assert x == f;
    }
    hide ClassOf;
  }

  lemma ClassesApart<S(!new)>(f: Fact<S>, g: Fact<S>)
    ensures ClassOf(SameFact<S>, f) == ClassOf(SameFact<S>, g) <==> f == g
  {
    assert f in ClassOf(SameFact<S>, f);
  }

  lemma SameStored<S(!new)>(a: map<uint64, seq<Fact<S>>>, b: map<uint64, seq<Fact<S>>>)
    ensures AllClasses(SameFact<S>, a) == AllClasses(SameFact<S>, b) ==> Stored(a) == Stored(b)
  {
    StoredByClass(a);
    StoredByClass(b);
    hide Stored, ClassOf, AllClasses;
  }

  lemma OneClassMore<S(!new)>(before: map<uint64, seq<Fact<S>>>, after: map<uint64, seq<Fact<S>>>, f: Fact<S>)
    requires AllClasses(SameFact<S>, after) == AllClasses(SameFact<S>, before) + {ClassOf(SameFact<S>, f)}
    ensures Stored(after) == Stored(before) + {f}
  {
    StoredByClass(before);
    StoredByClass(after);
    hide Stored, ClassOf, AllClasses;
    forall g
      ensures g in Stored(after) <==> g in Stored(before) + {f}
    {
      ClassesApart(g, f);
    }
  }

  lemma StoredOnly<S(!new)>(lists: map<uint64, seq<Fact<S>>>, facts: seq<Fact<S>>)
    requires AllClasses(SameFact<S>, lists) == Classes(SameFact<S>, facts)
    ensures Stored(lists) == set f | f in facts
  {
    StoredByClass(lists);
    hide Stored, AllClasses, ClassOf;
    forall g
      ensures g in Stored(lists) <==> g in facts
    {
      if g in Stored(lists) {
        var x :| x in facts && ClassOf(SameFact<S>, x) == ClassOf(SameFact<S>, g);
        ClassesApart(x, g);
      }
    }
  }

  lemma StoredUnion<S(!new)>(all: map<uint64, seq<Fact<S>>>, a: map<uint64, seq<Fact<S>>>, b: map<uint64, seq<Fact<S>>>)
    requires AllClasses(SameFact<S>, all) == AllClasses(SameFact<S>, a) + AllClasses(SameFact<S>, b)
    ensures Stored(all) == Stored(a) + Stored(b)
  {
    StoredByClass(all);
    StoredByClass(a);
    StoredByClass(b);
    hide Stored, ClassOf, AllClasses;
  }

  lemma ClassesCount<S(!new)>(lists: map<uint64, seq<Fact<S>>>)
    ensures |AllClasses(SameFact<S>, lists)| == |Stored(lists)|
  {
    var stored := Stored(lists);
    assert AllClasses(SameFact<S>, lists) == ClassesOf(stored);
    ClassesOfCount(stored);
  }

  ghost function ClassesOf<S(!new)>(facts: set<Fact<S>>): set<iset<Fact<S>>> {
    set f | f in facts :: ClassOf(SameFact<S>, f)
  }

  lemma {:induction false} ClassesOfCount<S(!new)>(facts: set<Fact<S>>)
    ensures |ClassesOf(facts)| == |facts|
    decreases facts
  {
    hide ClassOf;
    if facts != {} {
      var f :| f in facts;
      ClassesOfCount(facts - {f});
      forall g | g in facts
        ensures ClassOf(SameFact<S>, g) == ClassOf(SameFact<S>, f) <==> g == f
      {
        ClassesApart(g, f);
      }
      assert ClassesOf(facts) == ClassesOf(facts - {f}) + {ClassOf(SameFact<S>, f)};
    } else {
      assert ClassesOf(facts) == {};
    }
  }

  // ---- Sums over keys ----

  /** The sum of all the values. */
  ghost function Sum(sizes: map<string, int>): int
    decreases |sizes|
  {
    if sizes == map[] then 0
    else
      var k :| k in sizes;
      sizes[k] + Sum(sizes - {k})
  }

  lemma {:induction false} SumTakes(sizes: map<string, int>, k: string)
    requires k in sizes
    ensures Sum(sizes) == sizes[k] + Sum(sizes - {k})
    decreases |sizes|
  {
    var j :| j in sizes && Sum(sizes) == sizes[j] + Sum(sizes - {j});
    if j != k {
      SumTakes(sizes - {j}, k);
      SumTakes(sizes - {k}, j);
      assert sizes - {j} - {k} == sizes - {k} - {j};
    }
  }

  ghost function Keep(sizes: map<string, int>, keys: set<string>): map<string, int> {
    map k | k in sizes && k in keys :: sizes[k]
  }

  lemma KeepNone(sizes: map<string, int>)
    ensures Sum(Keep(sizes, {})) == 0
  {
    assert Keep(sizes, {}) == map[];
  }

  lemma KeepAll(sizes: map<string, int>, keys: set<string>)
    requires keys == sizes.Keys
    ensures Keep(sizes, keys) == sizes
  {
  }

  lemma SumStep(sizes: map<string, int>, keys: set<string>, k: string)
    requires k in keys && keys <= sizes.Keys
    ensures Sum(Keep(sizes, keys)) == sizes[k] + Sum(Keep(sizes, keys - {k}))
  {
    SumTakes(Keep(sizes, keys), k);
    assert Keep(sizes, keys) - {k} == Keep(sizes, keys - {k});
  }

  lemma FewerCanonical<S>(sets: Keyed<S>, k: string)
    requires Canonical(sets)
    ensures Canonical(sets - {k})
  {
    hide Decoded, Encoding;
  }

  /** When every key counts its own facts, the sum counts all the pairs. */
  lemma {:induction false} SumIsCount<S>(sets: Keyed<S>, sizes: map<string, int>)
    requires Canonical(sets) && sizes.Keys == sets.Keys && forall k :: k in sets ==> sizes[k] == |sets[k]|
    ensures Sum(sizes) == |ViewOf(sets)|
    decreases |sizes|
  {
    hide Canonical, ViewOf;
    if sizes == map[] {
      assert sets == map[];
      EmptyView<S>();
    } else {
      var k :| k in sizes;
      SumTakes(sizes, k);
      var fewer := sets - {k};
      FewerCanonical(sets, k);
      SumIsCount(fewer, sizes - {k});
      CountKey(sets, fewer, k);
      assert fewer[k := sets[k]] == sets;
    }
  }

  lemma DisjointCount<T>(a: set<T>, b: set<T>)
    requires a !! b
    ensures |a + b| == |a| + |b|
  {
  }

  /** One turn of the loop of Count. */
  lemma CountKey<S>(sets: Keyed<S>, done: Keyed<S>, k: string)
    requires Canonical(sets) && k in sets && k !in done
    requires forall j :: j in done ==> j in sets && done[j] == sets[j]
    ensures |ViewOf(done[k := sets[k]])| == |ViewOf(done)| + |sets[k]|
  {
    hide Decoded, Encoding, ViewOf;
    ViewWith(done, k, sets[k]);
    PairsCount(Decoded(k).value, sets[k]);
    NoneUnderKey(done, k);
    var pairs := Pairs(Decoded(k).value, sets[k]);
    forall f | f in pairs
      ensures f !in ViewOf(done)
    {
    }
    hide Pairs;
    DisjointCount(ViewOf(done), pairs);
  }

  lemma EmptyView<S>()
    ensures ViewOf<S>(map[]) == {}
  {
  }

  lemma InViewIff<S>(sets: Keyed<S>, origin: Origin, fact: Fact<S>)
    requires Canonical(sets) && origin != {}
    ensures OriginFact(origin, fact) in ViewOf(sets) <==> Encoding(origin) in sets && fact in sets[Encoding(origin)]
  {
    EncodingDecodes(origin);
    hide Decoded, Encoding;
    if OriginFact(origin, fact) in ViewOf(sets) {
      var k, f :| k in sets && Decoded(k).Some? && f in sets[k]
                  && OriginFact(Decoded(k).value, f) == OriginFact(origin, fact);
      assert k == Encoding(origin);
    }
  }

  /** Adding facts under the key of an origin adds exactly these facts with this origin. */
  lemma AddedUnderKey<S>(sets: Keyed<S>, origin: Origin, facts: set<Fact<S>>)
    requires Canonical(sets) && origin != {}
    ensures var key := Encoding(origin);
            var sets' := WithMore(sets, key, facts);
            Canonical(sets') && ViewOf(sets') == ViewOf(sets) + Pairs(origin, facts)
  {
    EncodingDecodes(origin);
    hide Decoded, Encoding;
    var key := Encoding(origin);
    var sets' := WithMore(sets, key, facts);
    forall k, f | k in sets' && f in sets'[k]
      ensures OriginFact(Decoded(k).value, f) in ViewOf(sets) + Pairs(origin, facts)
    {
    }
    forall k, f | k in sets && f in sets[k]
      ensures k in sets' && f in sets'[k]
    {
    }
    forall f | f in facts
      ensures key in sets' && f in sets'[key]
    {
    }
  }

  lemma ViewWith<S>(done: Keyed<S>, k: string, facts: set<Fact<S>>)
    requires k !in done && Decoded(k).Some?
    ensures ViewOf(done[k := facts]) == ViewOf(done) + Pairs(Decoded(k).value, facts)
  {
    hide Decoded;
    var all := done[k := facts];
    forall j, f | j in all && Decoded(j).Some? && f in all[j]
      ensures OriginFact(Decoded(j).value, f) in ViewOf(done) + Pairs(Decoded(k).value, facts)
    {
    }
    forall j, f | j in done && f in done[j]
      ensures j in all && f in all[j]
    {
    }
    forall f | f in facts
      ensures k in all && f in all[k]
    {
    }
  }

  /** No fact under other keys has the origin of this key. */
  lemma NoneUnderKey<S>(done: Keyed<S>, k: string)
    requires Canonical(done) && k !in done && Decoded(k).Some? && k == Encoding(Decoded(k).value)
    ensures forall f :: f in ViewOf(done) ==> f.origin != Decoded(k).value
  {
    hide Decoded, Encoding;
  }

  lemma CountWith<T>(xs: set<T>, x: T)
    ensures |xs + {x}| == |xs| + if x in xs then 0 else 1
  {
    assert x in xs ==> xs + {x} == xs;
  }

  lemma {:induction false} PairsCount<S>(origin: Origin, facts: set<Fact<S>>)
    ensures |Pairs(origin, facts)| == |facts|
    decreases facts
  {
    if facts != {} {
      var f :| f in facts;
      PairsCount(origin, facts - {f});
      assert Pairs(origin, facts) == Pairs(origin, facts - {f}) + {OriginFact(origin, f)};
    } else {
      assert Pairs(origin, facts) == {};
    }
  }
}
