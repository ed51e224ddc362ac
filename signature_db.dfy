/**
  The in-memory signature database: a map from a name to a map from a
  sub-name to the list of signature elements recorded for it, together with
  a set view of that map taken once, when the database is loaded. Names,
  sub-names and elements share one type, because the source tests elements
  against sub-names.
 */
module SignatureDb {

  datatype Option<T> = None | Some(value: T)

  /** name -> sub-name -> elements, in insertion order. */
  type Db = map<string, map<string, seq<string>>>

  /** name -> sub-name -> the set of those elements. */
  type View = map<string, map<string, set<string>>>

  /** The distinct elements of a list. */
  function Elements(list: seq<string>): set<string> {
    set k | k in list
  }

  /** The set view of one name's sub-name map. */
  function SubView(subs: map<string, seq<string>>): map<string, set<string>> {
    map j | j in subs :: Elements(subs[j])
  }

  /** The set view of a whole database. */
  function SetView(d: Db): View {
    map i | i in d :: SubView(d[i])
  }

  /** No element occurs twice in the list. */
  predicate Distinct(list: seq<string>) {
    forall p, q :: 0 <= p < q < |list| ==> list[p] != list[q]
  }

  /** Every element list of the database is free of repetitions. */
  predicate AllDistinct(d: Db) {
    forall i, j :: i in d && j in d[i] ==> Distinct(d[i][j])
  }

  /** Some name's sub-name map has `e` as a key. */
  predicate SubNameKnown(d: Db, e: string) {
    exists i :: i in d && e in d[i]
  }

  /**
    The set view counts each element once: it is never larger than its list,
    and exactly as large when the list has no repetitions.
   */
  lemma {:induction false} ElementsCount(list: seq<string>)
    ensures |Elements(list)| <= |list|
    ensures |Elements(list)| == |list| <==> Distinct(list)
    decreases |list|
  {
    if list != [] {
      var n := |list| - 1;
      var prefix := list[..n];
      ElementsCount(prefix);
      assert list == prefix + [list[n]];
      assert Elements(list) == Elements(prefix) + {list[n]};
      if list[n] in Elements(prefix) {
        var p :| 0 <= p < n && prefix[p] == list[n];
        assert list[p] == list[n];
        assert !Distinct(list);
      } else {
        assert |Elements(list)| == |Elements(prefix)| + 1;
        if Distinct(prefix) {
          assert Distinct(list);
        } else {
          var p, q :| 0 <= p < q < n && prefix[p] == prefix[q];
          assert list[p] == list[q];
        }
      }
    }
  }

  /**
    When no list repeats an element, as the intended add keeps them, every
    set of the view is exactly as large as its list: the total a report
    entry divides by is the list's length.
   */
  lemma SetViewCounts(d: Db, i: string, j: string)
    requires AllDistinct(d) && i in d && j in d[i]
    ensures i in SetView(d) && j in SetView(d)[i]
    ensures |SetView(d)[i][j]| == |d[i][j]|
  {
    ElementsCount(d[i][j]);
  }

  /**
    The database after `add_element(name, sname, elem)`. A new name gets the
    single sub-name `sname` with the list [elem]. For a known name the guard
    tests `elem` against the name's sub-name keys, not against the list:
    when `elem` is such a key nothing changes; otherwise `elem` is appended
    to the list of `sname`, which is created when absent.
   */
  function AddedElement(d: Db, name: string, sname: string, elem: string): (d2: Db)
    ensures d2.Keys == d.Keys + {name}
    ensures forall i :: i in d && i != name ==> d2[i] == d[i]
    ensures name !in d ==> d2[name] == map[sname := [elem]]
    ensures name in d && elem in d[name] ==> d2 == d
    ensures name in d && elem !in d[name] ==>
              && d2[name].Keys == d[name].Keys + {sname}
              && d2[name][sname] == (if sname in d[name] then d[name][sname] else []) + [elem]
              && forall j :: j in d[name] && j != sname ==> d2[name][j] == d[name][j]
  {
    if name !in d then d[name := map[sname := [elem]]]
    else if elem in d[name] then d
    else if sname in d[name] then d[name := d[name][sname := d[name][sname] + [elem]]]
    else d[name := d[name][sname := [elem]]]
  }

  /**
    Adding an element makes a string a known sub-name exactly when it was one
    already, or it is `sname` and the add was not suppressed.
   */
  lemma AddedElementSubNames(d: Db, name: string, sname: string, elem: string, e: string)
    ensures SubNameKnown(AddedElement(d, name, sname, elem), e) <==>
            SubNameKnown(d, e) || (e == sname && (name !in d || elem !in d[name]))
  {
    var d2 := AddedElement(d, name, sname, elem);
    if SubNameKnown(d, e) {
      var i :| i in d && e in d[i];
      assert i in d2 && e in d2[i];
    }
    if e == sname && (name !in d || elem !in d[name]) {
      assert name in d2 && e in d2[name];
    }
    if SubNameKnown(d2, e) && !(e == sname && (name !in d || elem !in d[name])) {
      var i :| i in d2 && e in d2[i];
      assert i in d && e in d[i];
    }
  }

  /**
    As written, the duplicate guard does not keep an element out of a list:
    adding the same element twice to a fresh database records it twice.
   */
  lemma AddElementTwiceDuplicates()
    ensures var once := AddedElement(map[], "app", "method", "bb");
            AddedElement(once, "app", "method", "bb")["app"]["method"] == ["bb", "bb"]
  {
    var once := AddedElement(map[], "app", "method", "bb");
    assert once["app"]["method"] == ["bb"];
    assert "bb" !in once["app"];
  }

  /**
    The evidently intended add: the guard tests `elem` against the list of
    `sname`, so an element is appended only when that list lacks it.
   */
  function AddedElementOnce(d: Db, name: string, sname: string, elem: string): (d2: Db)
    ensures d2.Keys == d.Keys + {name}
    ensures forall i :: i in d && i != name ==> d2[i] == d[i]
    ensures d2[name].Keys == (if name in d then d[name].Keys else {}) + {sname}
    ensures name in d ==> forall j :: j in d[name] && j != sname ==> d2[name][j] == d[name][j]
    ensures name in d && sname in d[name] ==>
              d2[name][sname] == (if elem in d[name][sname] then d[name][sname] else d[name][sname] + [elem])
    ensures name !in d || sname !in d[name] ==> d2[name][sname] == [elem]
  {
    if name !in d then d[name := map[sname := [elem]]]
    else if sname !in d[name] then d[name := d[name][sname := [elem]]]
    else if elem in d[name][sname] then d
    else d[name := d[name][sname := d[name][sname] + [elem]]]
  }

  /** The intended add keeps every list free of repetitions. */
  lemma AddedElementOnceKeepsDistinct(d: Db, name: string, sname: string, elem: string)
    requires AllDistinct(d)
    ensures AllDistinct(AddedElementOnce(d, name, sname, elem))
  {
    var d2 := AddedElementOnce(d, name, sname, elem);
    if name in d && sname in d[name] && elem !in d[name][sname] {
      var list := d[name][sname];
      assert Distinct(list);
      assert d2[name][sname] == list + [elem];
      forall p, q | 0 <= p < q < |list + [elem]|
        ensures (list + [elem])[p] != (list + [elem])[q]
      {
        if q == |list| {
          assert (list + [elem])[p] == list[p];
        }
      }
    }
  }

  /** With the intended add, adding the same element twice is the same as adding it once. */
  lemma AddedElementOnceIdempotent(d: Db, name: string, sname: string, elem: string)
    ensures var once := AddedElementOnce(d, name, sname, elem);
            AddedElementOnce(once, name, sname, elem) == once
  {
  }

  /** The fuzzy-match rule: at least a tenth of the sub-signature's distinct elements are shared. */
  predicate Matched(common: nat, total: nat) {
    10 * common >= total
  }

  /** The source's ratio: the shared count divided by half the total, times 100, in exact arithmetic. */
  function RatioPercent(common: nat, total: nat): real
    requires total > 0
  {
    (common as real) / ((total as real) / 2.0) * 100.0
  }

  /** The integer rule agrees with the source's test of the ratio against 20. */
  lemma MatchedIffRatio(common: nat, total: nat)
    requires total > 0
    ensures Matched(common, total) <==> RatioPercent(common, total) >= 20.0
  {
    var c, t := common as real, total as real;
    DivAtLeast(c, t / 2.0, 0.2);
    assert (10 * common) as real == 10.0 * c;
  }

  /** Dividing by a positive number keeps a lower bound, scaled. */
  lemma DivAtLeast(c: real, t: real, k: real)
    requires t > 0.0
    ensures c / t >= k <==> c >= k * t
  {
    var q := c / t;
    assert q * t == c;
    if q >= k {
      assert (q - k) * t >= 0.0;
    } else {
      assert (k - q) * t > 0.0;
    }
  }

  /** One entry of the fuzzy-match report. */
  datatype Match = Match(common: set<string>, total: nat, owner: string, matched: bool)

  /**
    The fuzzy-match report, keyed by sub-name alone, or the division by zero
    the source raises on an empty element set.
   */
  datatype Report = Matches(entries: map<string, Match>) | ZeroDivision

  /** The entry the query computes for sub-name `j` of name `i`. */
  function MatchOf(h: View, elems: set<string>, i: string, j: string): (m: Match)
    requires i in h && j in h[i]
    ensures m.common <= h[i][j] && m.common <= elems
    ensures m.total == |h[i][j]| && m.owner == i
    ensures forall e :: e in h[i][j] && e in elems ==> e in m.common
    ensures m.matched <==> 10 * |m.common| >= m.total
    ensures h[i][j] != {} ==> m.total > 0 && (m.matched <==> RatioPercent(|m.common|, m.total) >= 20.0)
  {
    var common := h[i][j] * elems;
    if h[i][j] != {} then
      MatchedIffRatio(|common|, |h[i][j]|);
      Match(common, |h[i][j]|, i, Matched(|common|, |h[i][j]|))
    else
      Match(common, |h[i][j]|, i, Matched(|common|, |h[i][j]|))
  }

  /** Some sub-name's element set is empty, which makes the ratio divide by zero. */
  predicate HasEmptySet(h: View) {
    exists i, j :: i in h && j in h[i] && h[i][j] == {}
  }

  /** The sub-names of the given names. */
  function SubNames(h: View, names: set<string>): set<string> {
    set i, j | i in names && i in h && j in h[i] :: j
  }

  class DBFormat {
    var D: Db
    var H: View

    /**
      Loads the database: `stored` is what the signature file held, or None
      when the file could not be opened, which starts an empty database.
     */
    constructor (stored: Option<Db>)
      ensures D == (if stored.Some? then stored.value else map[])
      ensures H == SetView(D)
    {
      var loaded: Db := if stored.Some? then stored.value else map[];
      var view := BuildSetView(loaded);
      D, H := loaded, view;
    }

    /** Builds the set view name by name, sub-name by sub-name, element by element. */
    static method BuildSetView(d: Db) returns (h: View)
      ensures h == SetView(d)
    {
      h := map[];
      var names := d.Keys;
      while names != {}
        invariant names <= d.Keys
        invariant h.Keys == d.Keys - names
        invariant forall i :: i in h ==> h[i] == SubView(d[i])
        decreases names
      {
        var i :| i in names;
        var subs := d[i].Keys;
        var hi: map<string, set<string>> := map[];
        while subs != {}
          invariant subs <= d[i].Keys
          invariant hi.Keys == d[i].Keys - subs
          invariant forall j :: j in hi ==> hi[j] == Elements(d[i][j])
          decreases subs
        {
          var j :| j in subs;
          var list := d[i][j];
          var acc: set<string> := {};
          for n := 0 to |list|
            invariant acc == Elements(list[..n])
          {
            assert list[..n + 1] == list[..n] + [list[n]];
            acc := acc + {list[n]};
          }
          assert list[..|list|] == list;
          hi := hi[j := acc];
          subs := subs - {j};
        }
        h := h[i := hi];
        names := names - {i};
      }
    }

    /** Records `elem` under `name` and `sname`; the set view is left as loaded. */
    method AddElement(name: string, sname: string, elem: string)
      modifies this`D
      ensures D == AddedElement(old(D), name, sname, elem)
      ensures H == old(H)
    {
      if name in D {
        if elem !in D[name] {
          if sname in D[name] {
            D := D[name := D[name][sname := D[name][sname] + [elem]]];
          } else {
            // The append raised KeyError: the list is created.
            D := D[name := D[name][sname := [elem]]];
          }
        }
      } else {
        // The lookup of the name raised KeyError: the name is created.
        D := D[name := map[sname := [elem]]];
      }
    }

    /**
      Looks for a name whose sub-name map has `elem` as a key, and answers
      the first one met, or (false, None).
     */
    method IsPresent(elem: string) returns (found: bool, owner: Option<string>)
      ensures found <==> SubNameKnown(D, elem)
      ensures found ==> owner.Some? && owner.value in D && elem in D[owner.value]
      ensures !found ==> owner == None
    {
      var names := D.Keys;
      while names != {}
        invariant names <= D.Keys
        invariant forall i :: i in D && i !in names ==> elem !in D[i]
        decreases names
      {
        var i :| i in names;
        if elem in D[i] {
          return true, Some(i);
        }
        names := names - {i};
      }
      return false, None;
    }

    /**
      The fuzzy-match query against the set view. Each sub-name gets the
      entry of one name that has it (a later name overwrites an earlier one),
      unless some element set is empty, where the source divides by zero.
     */
    method ElemsArePresents(elems: set<string>) returns (report: Report)
      ensures report.ZeroDivision? <==> HasEmptySet(H)
      ensures report.Matches? ==> report.entries.Keys == SubNames(H, H.Keys)
      ensures report.Matches? ==>
                forall j :: j in report.entries ==>
                  exists i :: i in H && j in H[i] && report.entries[j] == MatchOf(H, elems, i, j)
    ensures report.Matches? ==>
              forall j :: j in report.entries ==>
                report.entries[j].total > 0 &&
                (report.entries[j].matched <==> RatioPercent(|report.entries[j].common|, report.entries[j].total) >= 20.0)
    {
      var ret: map<string, Match> := map[];
      var names := H.Keys;
      while names != {}
        invariant names <= H.Keys
        invariant forall i, j :: i in H && i !in names && j in H[i] ==> H[i][j] != {}
        invariant ret.Keys == SubNames(H, H.Keys - names)
        invariant forall j :: j in ret ==> exists i :: i in H && j in H[i] && ret[j] == MatchOf(H, elems, i, j)
        decreases names
      {
        var i :| i in names;
        var subs := H[i].Keys;
        while subs != {}
          invariant subs <= H[i].Keys
          invariant forall j :: j in H[i] && j !in subs ==> H[i][j] != {}
          invariant ret.Keys == SubNames(H, H.Keys - names) + (H[i].Keys - subs)
          invariant forall j :: j in ret ==> exists i :: i in H && j in H[i] && ret[j] == MatchOf(H, elems, i, j)
          decreases subs
        {
          var j :| j in subs;
          var common := H[i][j] * elems;
          var total := |H[i][j]|;
          if total == 0 {
            return ZeroDivision;
          }
          ret := ret[j := Match(common, total, i, 10 * |common| >= total)];
          subs := subs - {j};
        }
        assert SubNames(H, H.Keys - (names - {i})) == SubNames(H, H.Keys - names) + H[i].Keys;
        names := names - {i};
      }
      forall j | j in ret
        ensures ret[j].total > 0 && (ret[j].matched <==> RatioPercent(|ret[j].common|, ret[j].total) >= 20.0)
      {
        var i :| i in H && j in H[i] && ret[j] == MatchOf(H, elems, i, j);
        assert H[i][j] != {};
      }
      return Matches(ret);
    }
  }
}
