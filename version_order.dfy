/** `versions.sort(reverse=True)` under the order of `Version`, taken here as
    the order of upload dates: newest first, and, as Python's sort is stable
    also when reversed, versions with equal upload dates keep their order. */
module VersionOrder {
  import opened Records

  ghost predicate NewestFirst(vs: seq<Version>)
  {
    forall i, j :: 0 <= i < j < |vs| ==> vs[i].uploadDate >= vs[j].uploadDate
  }

  /** Places `v` in front of the first version that is not newer than it. */
  function Insert(v: Version, vs: seq<Version>): (r: seq<Version>)
    ensures |r| == |vs| + 1 && v in r
  {
    if |vs| == 0 then [v]
    else if vs[0].uploadDate <= v.uploadDate then [v] + vs
    else [vs[0]] + Insert(v, vs[1..])
  }

  /** `sort(reverse=True)`: insertion of each version into the sorted rest. */
  function SortNewestFirst(vs: seq<Version>): (r: seq<Version>)
    ensures |r| == |vs|
  {
    if |vs| == 0 then [] else Insert(vs[0], SortNewestFirst(vs[1..]))
  }

  /** The versions uploaded at `t`, in their order in `vs`. */
  function UploadedAt(vs: seq<Version>, t: Timestamp): seq<Version>
  {
    if |vs| == 0 then []
    else if vs[0].uploadDate == t then [vs[0]] + UploadedAt(vs[1..], t)
    else UploadedAt(vs[1..], t)
  }

  lemma {:induction false} InsertHoldsInputAndV(v: Version, vs: seq<Version>)
    ensures multiset(Insert(v, vs)) == multiset(vs) + multiset{v}
    ensures forall x :: x in Insert(v, vs) ==> x == v || x in vs
  {
    if |vs| > 0 && vs[0].uploadDate > v.uploadDate {
      InsertHoldsInputAndV(v, vs[1..]);
      assert vs == [vs[0]] + vs[1..];
    }
  }

  lemma {:induction false} InsertKeepsNewestFirst(v: Version, vs: seq<Version>)
    requires NewestFirst(vs)
    ensures NewestFirst(Insert(v, vs))
  {
    if |vs| > 0 && vs[0].uploadDate > v.uploadDate {
      InsertKeepsNewestFirst(v, vs[1..]);
      InsertHoldsInputAndV(v, vs[1..]);
      var r := Insert(v, vs[1..]);
      assert forall x :: x in r ==> x.uploadDate <= vs[0].uploadDate;
      assert forall j :: 0 <= j < |r| ==> r[j] in r;
    }
  }

  /** The result is ordered newest first and holds exactly the input
      versions, each as often as in the input. */
  lemma {:induction false} SortNewestFirstCorrect(vs: seq<Version>)
    ensures NewestFirst(SortNewestFirst(vs))
    ensures multiset(SortNewestFirst(vs)) == multiset(vs)
    ensures |SortNewestFirst(vs)| == |vs|
  {
    if |vs| > 0 {
      SortNewestFirstCorrect(vs[1..]);
      InsertKeepsNewestFirst(vs[0], SortNewestFirst(vs[1..]));
      InsertHoldsInputAndV(vs[0], SortNewestFirst(vs[1..]));
      assert vs == [vs[0]] + vs[1..];
    }
    assert |multiset(SortNewestFirst(vs))| == |multiset(vs)|;
  }

  lemma {:induction false} InsertUploadedAt(v: Version, vs: seq<Version>, t: Timestamp)
    ensures UploadedAt(Insert(v, vs), t) ==
      if v.uploadDate == t then [v] + UploadedAt(vs, t) else UploadedAt(vs, t)
  {
    if |vs| == 0 {
    } else if vs[0].uploadDate <= v.uploadDate {
      assert ([v] + vs)[1..] == vs;
    } else {
      InsertUploadedAt(v, vs[1..], t);
      assert ([vs[0]] + Insert(v, vs[1..]))[1..] == Insert(v, vs[1..]);
    }
  }

  /** Stability: the versions sharing an upload date come out in their input
      order. */
  lemma {:induction false} SortNewestFirstIsStable(vs: seq<Version>, t: Timestamp)
    ensures UploadedAt(SortNewestFirst(vs), t) == UploadedAt(vs, t)
  {
    if |vs| > 0 {
      SortNewestFirstIsStable(vs[1..], t);
      InsertUploadedAt(vs[0], SortNewestFirst(vs[1..]), t);
    }
  }

  /** Three versions uploaded in 2021, 2023 and 2022 come out 2023, 2022,
      2021. */
  lemma ThreeUploadsExample(a: Version, b: Version, c: Version)
    requires a.uploadDate == 20210101 && b.uploadDate == 20230615 && c.uploadDate == 20220310
    ensures SortNewestFirst([a, b, c]) == [b, c, a]
  {
    assert [a, b, c][1..] == [b, c];
    assert [b, c][1..] == [c];
    assert [c][1..] == [];
    assert SortNewestFirst([c]) == [c];
    assert SortNewestFirst([b, c]) == Insert(b, [c]) == [b, c];
    assert Insert(a, [c]) == [c] + Insert(a, []);
    assert Insert(a, [b, c]) == [b] + Insert(a, [c]);
  }
}
