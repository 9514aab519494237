/** `Crypto::orderByDesc('volume24')`, the order VolumesAlert, RSIAlert and
    FetchVolumesWebSocket read the cryptos in. A null volume sorts last, as in
    MySQL and SQLite. SQL leaves the order of equal volumes open; the model
    fixes one. */
module VolumeOrder {
  import opened Common
  import opened Schema
  import Sorting

  /** `orderByDesc('volume24')`: a crypto comes no later than another when its
      24-hour volume is not smaller, a null volume sorting last. */
  predicate VolumeFirst(a: Crypto, b: Crypto) {
    !ColumnLess(a.volume24, b.volume24)
  }

  lemma VolumeFirstIsPreorder()
    ensures Sorting.TotalPreorder(VolumeFirst)
  {
  }

  /** The cryptos by descending 24-hour volume. */
  function ByVolume(cryptos: seq<Crypto>): seq<Crypto> {
    Sorting.SortBy(cryptos, VolumeFirst)
  }

  /** The order is a permutation of the table, by descending volume. */
  lemma ByVolumeOrdered(cryptos: seq<Crypto>)
    ensures multiset(ByVolume(cryptos)) == multiset(cryptos) && |ByVolume(cryptos)| == |cryptos|
    ensures forall i, j :: 0 <= i < j < |cryptos| ==> VolumeFirst(ByVolume(cryptos)[i], ByVolume(cryptos)[j])
  {
    Sorting.SortByPermutes(cryptos, VolumeFirst);
    VolumeFirstIsPreorder();
    Sorting.SortBySorted(cryptos, VolumeFirst);
  }

  /** A crypto whose id no other has can go in front. */
  lemma ConsUnique(a: Crypto, r: seq<Crypto>)
    requires UniqueIds(r) && forall j :: 0 <= j < |r| ==> r[j].id != a.id
    ensures UniqueIds([a] + r)
  {
    var t := [a] + r;
    forall i, j | 0 <= i < j < |t| ensures t[i].id != t[j].id {
      assert t[j] == r[j - 1];
      if i > 0 {
        assert t[i] == r[i - 1];
      }
    }
  }

  lemma {:induction false} InsertKeepsUniqueIds(x: Crypto, s: seq<Crypto>)
    requires UniqueIds(s) && forall k :: 0 <= k < |s| ==> s[k].id != x.id
    ensures UniqueIds(Sorting.Insert(x, s, VolumeFirst))
    decreases |s|
  {
    if s == [] {
      assert Sorting.Insert(x, s, VolumeFirst) == [x];
    } else if VolumeFirst(x, s[0]) {
      assert Sorting.Insert(x, s, VolumeFirst) == [x] + s;
      ConsUnique(x, s);
    } else {
      var tail := s[1..];
      assert forall k :: 0 <= k < |tail| ==> tail[k] == s[k + 1];
      InsertKeepsUniqueIds(x, tail);
      var rest := Sorting.Insert(x, tail, VolumeFirst);
      assert Sorting.Insert(x, s, VolumeFirst) == [s[0]] + rest;
      forall j | 0 <= j < |rest| ensures rest[j].id != s[0].id {
        assert rest[j] in multiset(rest);
        if rest[j] != x {
          var k :| 0 <= k < |tail| && tail[k] == rest[j];
        }
      }
      ConsUnique(s[0], rest);
    }
  }

  /** Sorting keeps the ids unique. */
  lemma {:induction false} ByVolumeKeepsUniqueIds(cryptos: seq<Crypto>)
    requires UniqueIds(cryptos)
    ensures UniqueIds(ByVolume(cryptos))
    decreases |cryptos|
  {
    if cryptos != [] {
      ByVolumeKeepsUniqueIds(cryptos[1..]);
      Sorting.SortByPermutes(cryptos[1..], VolumeFirst);
      var sorted := ByVolume(cryptos[1..]);
      forall k | 0 <= k < |sorted| ensures sorted[k].id != cryptos[0].id {
        assert sorted[k] in multiset(cryptos[1..]);
      }
      InsertKeepsUniqueIds(cryptos[0], sorted);
    }
  }
}
