/** What a document says at a path (lib/datasync/cache/treenode_cache.c), without building anything: members are
    followed by key, array elements by index. The value that a put stores shows the document at every path. */
module Documents {
  import opened Keys
  import opened Paths
  import opened CacheTree
  import opened Merkle

  /** The value of the first member with this key. */
  function Field(ms: seq<Member>, k: Key): Option<Json> {
    if ms == [] then None else if ms[0].key == k then Some(ms[0].value) else Field(ms[1..], k)
  }

  /** The part of the document that the path leads to. */
  function Walk(j: Json, p: Path): Option<Json>
    decreases p
  {
    if p == [] then Some(j)
    else
      match j
      case JArr(es) => if p[0].Index? && 0 <= p[0].v < |es| then Walk(es[p[0].v], p[1..]) else None
      case JObj(ms) => (match Field(ms, p[0]) case Some(x) => Walk(x, p[1..]) case None => None)
      case _ => None
  }

  /** A value shows a part of a document: a leaf is itself, an array or an object is a map, null and what is outside
      the document is nothing. */
  predicate Shows(r: Option<Val>, w: Option<Json>) {
    match w
    case None => r == None
    case Some(JNull) => r == None
    case Some(JBool(b)) => r == Some(VBool(b))
    case Some(JNum(h)) => r == Some(VNum(h))
    case Some(JStr(s)) => r == Some(VStr(s))
    case Some(_) => r.Some? && r.value.VMap?
  }

  lemma NullIsNull(j: Json)
    ensures FromJson(j).VNull? <==> j.JNull?
  {
  }

  lemma {:induction false} ElementAt(es: seq<Json>, n: nat, k: Key)
    requires n <= |es|
    ensures k in FromArr(es, n) <==> k.Index? && 0 <= k.v < n && !es[k.v].JNull?
    ensures k in FromArr(es, n) ==> FromArr(es, n)[k] == FromJson(es[k.v])
  {
    hide FromJson;
    if n > 0 {
      ElementAt(es, n - 1, k);
      NullIsNull(es[n - 1]);
    }
  }

  lemma {:induction false} MemberAt(ms: seq<Member>, n: nat, k: Key)
    requires n <= |ms| && Distinct(ms)
    ensures k in FromObj(ms, n) <==> exists i :: 0 <= i < n && ms[i].key == k && !ms[i].value.JNull?
    ensures forall i :: 0 <= i < n && ms[i].key == k && !ms[i].value.JNull? ==>
              FromObj(ms, n)[k] == FromJson(ms[i].value)
  {
    hide FromJson;
    if n > 0 {
      MemberAt(ms, n - 1, k);
      NullIsNull(ms[n - 1].value);
    }
  }

  lemma {:induction false} FieldIndex(ms: seq<Member>, k: Key) returns (i: nat)
    ensures Field(ms, k).Some? ==> i < |ms| && ms[i].key == k && Field(ms, k) == Some(ms[i].value)
    ensures Field(ms, k).None? ==> forall j :: 0 <= j < |ms| ==> ms[j].key != k
  {
    i := 0;
    if ms != [] && ms[0].key != k {
      i := FieldIndex(ms[1..], k);
      i := i + 1;
    }
  }

  /** The value of a well-formed document shows the document at every path below its root. */
  lemma {:induction false} ValueShows(j: Json, p: Path)
    requires WellFormed(j) && (p == [] ==> !j.JNull?)
    ensures Shows(GetVal(FromJson(j), p), Walk(j, p))
    decreases p, 1
  {
    if p != [] {
      var k := p[0];
      match j
      case JArr(es) =>
        ElementAt(es, |es|, k);
        if k.Index? && 0 <= k.v < |es| {
          ChildShows(es[k.v], p[1..]);
        }
      case JObj(ms) =>
        var i := FieldIndex(ms, k);
        MemberAt(ms, |ms|, k);
        if Field(ms, k).Some? {
          ChildShows(ms[i].value, p[1..]);
        }
      case _ =>
    }
  }

  lemma {:induction false} ChildShows(x: Json, rest: Path)
    requires WellFormed(x)
    ensures x.JNull? ==> Shows(None, Walk(x, rest))
    ensures !x.JNull? ==> Shows(GetVal(FromJson(x), rest), Walk(x, rest))
    decreases rest, 2
  {
    if !x.JNull? {
      ValueShows(x, rest);
    }
  }

  /** After a put, the value at and below its path shows the document. */
  lemma PutShows(v: Val, p: Path, j: Json, q: Path)
    requires WellFormed(j)
    ensures p + q != [] || !j.JNull? ==> Shows(GetVal(PutVal(v, p, FromJson(j), false), p + q), Walk(j, q))
  {
    hide PutVal, GetVal, FromJson, Walk;
    NullIsNull(j);
    if q == [] {
      assert p + q == p;
      GetPutSame(v, p, FromJson(j), false);
      Here(j);
    } else {
      GetPutBelow(v, p, FromJson(j), false, p + q);
      assert (p + q)[|p|..] == q;
      ValueShows(j, q);
    }
  }

  lemma Here(j: Json)
    ensures Walk(j, []) == Some(j) && (!j.JNull? ==> Shows(Some(FromJson(j)), Some(j)))
  {
  }

  lemma {:induction false} GetConcat(v: Val, p: Path, q: Path)
    ensures GetVal(v, p + q) == if GetVal(v, p).Some? then GetVal(GetVal(v, p).value, q) else None
    decreases p
  {
    if p == [] {
      assert p + q == q;
    } else if v.VMap? && p[0] in v.m {
      assert (p + q)[1..] == p[1..] + q;
      GetConcat(v.m[p[0]], p[1..], q);
    }
  }

  /** After a merge, the value at and below the path of a member shows the member, unless a later one was put above, at
      or below that path. */
  lemma MergeShows(v: Val, p: Path, ms: seq<Update>, j: nat, q: Path)
    requires j < |ms| && WellFormed(ms[j].value) && p + ms[j].below != []
    requires forall k :: j < k < |ms| ==> !(ms[j].below <= ms[k].below) && !(ms[k].below <= ms[j].below)
    ensures Shows(GetVal(MergeVal(v, p, ms, |ms|), p + ms[j].below + q), Walk(ms[j].value, q))
  {
    hide MergeVal, GetVal, FromJson, Walk, WellFormed, Shows;
    var m, at, x := MergeVal(v, p, ms, |ms|), p + ms[j].below, ms[j].value;
    MergeGet(v, p, ms, |ms|, j);
    GetConcat(m, at, q);
    NullIsNull(x);
    ChildShows(x, q);
  }
}
