/** Origins as map keys (datalog/origin.go): block ids in order, in base 36, joined by commas. */
module Origins {
  import opened Wrappers
  import opened Types
  import opened Digits

  const BASE := 36

  /** BlockID.Compare: the authorizer comes before every block. */
  function CompareIds(i: BlockId, j: BlockId): int {
    if i == AUTHORIZER && j != AUTHORIZER then -1
    else if i != AUTHORIZER && j == AUTHORIZER then 1
    else if i < j then -1
    else if i > j then 1
    else 0
  }

  function IdsOf(ids: seq<BlockId>): Origin { set i | i in ids }

  /** The place of an id in that order. */
  function Rank(id: BlockId): int { if id == AUTHORIZER then -1 else id }

  lemma CompareIdsByRank(i: BlockId, j: BlockId)
    ensures CompareIds(i, j) < 0 <==> Rank(i) < Rank(j)
    ensures CompareIds(i, j) == 0 <==> i == j
    ensures CompareIds(i, j) == -CompareIds(j, i)
  {
  }

  ghost predicate Increasing(ids: seq<BlockId>) {
    forall i, j :: 0 <= i < j < |ids| ==> Rank(ids[i]) < Rank(ids[j])
  }

  /** Adds an id to increasing ids, in its place. */
  function InsertId(id: BlockId, ids: seq<BlockId>): seq<BlockId> {
    if ids == [] then [id]
    else if CompareIds(id, ids[0]) < 0 then [id] + ids
    else [ids[0]] + InsertId(id, ids[1..])
  }

  lemma PutFirst(id: BlockId, ids: seq<BlockId>)
    ensures IdsOf([id] + ids) == {id} + IdsOf(ids)
    ensures Increasing(ids) && (forall i :: i in IdsOf(ids) ==> Rank(id) < Rank(i)) ==> Increasing([id] + ids)
  {
    forall j | 0 <= j < |ids|
      ensures ids[j] in IdsOf(ids)
    {
    }
    hide Rank;
  }

  lemma AfterFirst(ids: seq<BlockId>)
    requires Increasing(ids) && ids != []
    ensures IdsOf(ids) == {ids[0]} + IdsOf(ids[1..]) && Increasing(ids[1..])
    ensures forall i :: i in IdsOf(ids[1..]) ==> Rank(ids[0]) < Rank(i)
  {
    assert ids == [ids[0]] + ids[1..];
    hide Rank;
  }

  lemma {:induction false} InsertIdKeeps(id: BlockId, ids: seq<BlockId>)
    requires Increasing(ids) && id !in IdsOf(ids)
    ensures Increasing(InsertId(id, ids)) && IdsOf(InsertId(id, ids)) == IdsOf(ids) + {id}
  {
    hide CompareIds, Increasing, IdsOf, Rank, InsertId;
    if ids == [] {
      InsertIdNone(id);
      PutFirst(id, []);
      assert [id] + [] == [id];
      IncreasingNone();
    } else {
      AfterFirst(ids);
      CompareIdsByRank(id, ids[0]);
      CompareIdsByRank(ids[0], id);
      if CompareIds(id, ids[0]) < 0 {
        InsertIdFirst(id, ids);
        PutFirst(id, ids);
      } else {
        InsertIdKeeps(id, ids[1..]);
        PutFirst(ids[0], InsertId(id, ids[1..]));
        InsertIdLater(id, ids);
      }
    }
  }

  lemma InsertIdNone(id: BlockId)
    ensures InsertId(id, []) == [id] && IdsOf([]) == {}
  {
  }

  lemma IncreasingNone()
    ensures Increasing([])
  {
  }

  lemma InsertIdFirst(id: BlockId, ids: seq<BlockId>)
    requires ids != [] && CompareIds(id, ids[0]) < 0
    ensures InsertId(id, ids) == [id] + ids
  {
  }

  lemma InsertIdLater(id: BlockId, ids: seq<BlockId>)
    requires ids != [] && CompareIds(id, ids[0]) >= 0
    ensures InsertId(id, ids) == [ids[0]] + InsertId(id, ids[1..])
  {
  }

  lemma EmptyIds(ids: seq<BlockId>)
    ensures IdsOf(ids) == {} <==> ids == []
  {
    if ids != [] {
      assert ids[0] in IdsOf(ids);
    }
  }

  /** The increasing list of the ids of an origin is unique. */
  lemma {:induction false} IncreasingIsUnique(a: seq<BlockId>, b: seq<BlockId>)
    requires Increasing(a) && Increasing(b) && IdsOf(a) == IdsOf(b)
    ensures a == b
  {
    EmptyIds(a);
    EmptyIds(b);
    if a != [] {
      FirstIsLeast(a);
      FirstIsLeast(b);
      assert a[0] in IdsOf(b) && b[0] in IdsOf(a);
      assert a[0] == b[0];
      assert IdsOf(a[1..]) == IdsOf(a) - {a[0]};
      assert IdsOf(b[1..]) == IdsOf(b) - {b[0]};
      IncreasingIsUnique(a[1..], b[1..]);
      assert a == [a[0]] + a[1..] && b == [b[0]] + b[1..];
    }
  }

  lemma FirstIsLeast(a: seq<BlockId>)
    requires Increasing(a) && a != []
    ensures forall i :: i in IdsOf(a) ==> i == a[0] || Rank(a[0]) < Rank(i)
    ensures forall i :: i in a[1..] ==> i != a[0]
  {
  }

  lemma {:induction false} IncreasingExists(o: Origin) returns (ids: seq<BlockId>)
    ensures Increasing(ids) && IdsOf(ids) == o
  {
    if o == {} {
      ids := [];
    } else {
      var i :| i in o;
      var rest := IncreasingExists(o - {i});
      InsertIdKeeps(i, rest);
      ids := InsertId(i, rest);
    }
  }

  ghost function SortedIds(o: Origin): (r: seq<BlockId>)
    ensures Increasing(r) && IdsOf(r) == o
  {
    assert exists ids :: Increasing(ids) && IdsOf(ids) == o by {
      var ids := IncreasingExists(o);
    }
    var ids :| Increasing(ids) && IdsOf(ids) == o;
    ids
  }

  function Join(ids: seq<BlockId>): string {
    if ids == [] then ""
    else if |ids| == 1 then FormatUint(ids[0], BASE)
    else Join(ids[..|ids| - 1]) + "," + FormatUint(ids[|ids| - 1], BASE)
  }

  /** The key that stands for an origin. */
  ghost function Encoding(o: Origin): string { Join(SortedIds(o)) }

  /** Sorted: the ids of an origin come in any order. */
  method Sort(o: Origin) returns (ids: seq<BlockId>)
    ensures ids == SortedIds(o)
  {
    hide InsertId, IdsOf, Increasing;
    var todo := o;
    ids := [];
    EmptyIds(ids);
    assert Increasing(ids) by {
      IncreasingNone();
    }
    while todo != {}
      invariant todo <= o && Increasing(ids) && IdsOf(ids) == o - todo
      decreases todo
    {
      var id :| id in todo;
      InsertIdKeeps(id, ids);
      ids := InsertId(id, ids);
      todo := todo - {id};
    }
    assert o - todo == o;
    IncreasingIsUnique(ids, SortedIds(o));
  }

  /** Origin.EncodeToString. */
  method EncodeToString(o: Origin) returns (s: string)
    ensures s == Encoding(o)
  {
    hide SortedIds, FormatUint;
    var ids := Sort(o);
    s := "";
    for i := 0 to |ids|
      invariant s == Join(ids[..i])
    {
      assert ids[..i + 1][..i] == ids[..i];
      if i > 0 {
        s := s + ",";
      }
      s := s + FormatUint(ids[i], BASE);
    }
    assert ids[..|ids|] == ids;
  }

  /** strings.Split at commas. */
  function Split(s: string): (r: seq<string>)
    ensures r != []
  {
    if s == "" then [""]
    else
      var parts, c := Split(s[..|s| - 1]), s[|s| - 1];
      if c == ',' then parts + [""] else parts[|parts| - 1 := parts[|parts| - 1] + [c]]
  }

  /** The ids of a list of parts, or None if one of them is no number. */
  function ParseParts(parts: seq<string>): Option<Origin> {
    if parts == [] then Some({})
    else
      match (ParseParts(parts[..|parts| - 1]), ParseUint(parts[|parts| - 1], BASE))
      case (Some(o), Some(id)) => Some(o + {id})
      case _ => None
  }

  function Decoded(s: string): Option<Origin> {
    if s == "" then None else ParseParts(Split(s))
  }

  /** NewOriginFromString; None is an error. */
  method NewOriginFromString(s: string) returns (r: Option<Origin>)
    ensures r == Decoded(s)
  {
    if s == "" {
      return None;
    }
    var parts := Split(s);
    var o: Origin := {};
    for i := 0 to |parts|
      invariant ParseParts(parts[..i]) == Some(o)
    {
      assert parts[..i + 1][..i] == parts[..i];
      var num := ParseUint(parts[i], BASE);
      if num.None? {
        PartsFail(parts, i + 1);
        return None;
      }
      o := o + {num.value};
    }
    assert parts[..|parts|] == parts;
    r := Some(o);
  }

  lemma {:induction false} PartsFail(parts: seq<string>, n: nat)
    requires n <= |parts| && ParseParts(parts[..n]).None?
    ensures ParseParts(parts).None?
    decreases |parts| - n
  {
    if n < |parts| {
      assert parts[..n + 1][..n] == parts[..n];
      PartsFail(parts, n + 1);
    } else {
      assert parts[..n] == parts;
    }
  }

  // ---- The encoding round-trips ----

  lemma {:induction false} SplitPart(s: string, part: string)
    requires ',' !in part
    ensures Split(s + "," + part) == Split(s) + [part]
    decreases |part|
  {
    var t := s + "," + part;
    if part == "" {
      assert t[..|t| - 1] == s;
    } else {
      var n := |part| - 1;
      SplitPart(s, part[..n]);
      assert t[..|t| - 1] == s + "," + part[..n];
      assert part == part[..n] + [part[n]];
    }
  }

  lemma {:induction false} SplitAlone(part: string)
    requires ',' !in part
    ensures Split(part) == [part]
    decreases |part|
  {
    if part != "" {
      SplitAlone(part[..|part| - 1]);
      assert part == part[..|part| - 1] + [part[|part| - 1]];
    }
  }

  lemma ParseOneMore(parts: seq<string>, part: string, ids: seq<BlockId>, id: BlockId)
    requires ParseParts(parts) == Some(IdsOf(ids)) && ParseUint(part, BASE) == Some(id)
    ensures ParseParts(parts + [part]) == Some(IdsOf(ids + [id]))
  {
    hide ParseUint;
    var all := parts + [part];
    assert all[..|all| - 1] == parts;
    assert IdsOf(ids + [id]) == IdsOf(ids) + {id};
  }

  lemma {:induction false} JoinDecodes(ids: seq<BlockId>)
    requires ids != []
    ensures Join(ids) != "" && ParseParts(Split(Join(ids))) == Some(IdsOf(ids))
    decreases |ids|
  {
    hide FormatUint, ParseUint, Split;
    var n := |ids| - 1;
    var last := FormatUint(ids[n], BASE);
    ParseFormat(ids[n], BASE);
    assert ids == ids[..n] + [ids[n]];
    if n == 0 {
      SplitAlone(last);
      EmptyIds(ids[..n]);
      ParseOneMore([], last, ids[..n], ids[n]);
      assert [] + [last] == [last];
    } else {
      JoinDecodes(ids[..n]);
      SplitPart(Join(ids[..n]), last);
      ParseOneMore(Split(Join(ids[..n])), last, ids[..n], ids[n]);
    }
  }

  /** Decoding the key of an origin gives it back, unless it is empty. */
  lemma EncodingDecodes(o: Origin)
    ensures Decoded(Encoding(o)) == if o == {} then None else Some(o)
  {
    if SortedIds(o) != [] {
      assert SortedIds(o)[0] in IdsOf(SortedIds(o));
      JoinDecodes(SortedIds(o));
    }
  }

  /** Two origins have the same key only if they are the same. */
  lemma EncodingIsCanonical(a: Origin, b: Origin)
    ensures Encoding(a) == Encoding(b) <==> a == b
  {
    EncodingDecodes(a);
    EncodingDecodes(b);
  }
}
