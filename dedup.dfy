/**
 * The SKU fill/rename rule that the product normaliser applies to the whole
 * file and the option reconciler applies inside each product group.
 *
 * Rows are visited in order, each with the counters of its scope: the n-th
 * empty SKU (from 0) becomes `GetNextPrefix(n)`; the first row with a given
 * trimmed SKU keeps its cell; the k-th row with it (k >= 2) becomes
 * `GetNextPrefix(k - 2)` followed by the trimmed SKU. The counters count the
 * ORIGINAL trimmed SKUs of the earlier rows of the scope, so this module
 * states the rule as a function of those earlier SKUs rather than of
 * counters.
 */
module Dedup {
  import opened Wrappers
  import opened Text
  import opened SkuPrefix

  /**
   * A row as the pass sees it: the scope whose counters it uses (`None`: the
   * pass skips the row), its SKU cell, and that cell trimmed.
   */
  datatype Entry = Entry(scope: Option<string>, sku: string, key: string)

  function MakeEntry(scope: Option<string>, sku: string): (e: Entry)
    ensures e.key == Trim(e.sku)
  {
    Entry(scope, sku, Trim(sku))
  }

  /** Every entry's key is its SKU cell trimmed. */
  predicate Keyed(es: seq<Entry>) {
    forall i :: 0 <= i < |es| ==> es[i].key == Trim(es[i].sku)
  }

  function Keys(es: seq<Entry>): (r: seq<string>)
    ensures |r| == |es| && forall i :: 0 <= i < |es| ==> r[i] == es[i].key
  {
    seq(|es|, i requires 0 <= i < |es| => es[i].key)
  }

  /** How many of `keys` equal `key`. */
  function Count(keys: seq<string>, key: string): nat {
    if keys == [] then 0
    else Count(keys[..|keys| - 1], key) + (if keys[|keys| - 1] == key then 1 else 0)
  }

  /** What the pass does with one row. */
  datatype Outcome = Keep | Fill(sku: string) | Rename(original: string, sku: string)

  /**
   * The decision for a row whose SKU cell is `raw` (trimmed: `key`), after
   * the rows of its scope whose trimmed SKUs were `prev`.
   */
  function Decide(prev: seq<string>, raw: string, key: string): Outcome {
    var n := Count(prev, key);
    if key == "" then Fill(GetNextPrefix(n))
    else if n == 0 then Keep
    else Rename(key, GetNextPrefix(n - 1) + key)
  }

  /** The SKU cell after the decision. */
  function FinalSku(prev: seq<string>, raw: string, key: string): string {
    match Decide(prev, raw, key)
    case Keep => raw
    case Fill(s) => s
    case Rename(_, s) => s
  }

  /** The SKU the product map records for the row: the trimmed original when the cell is kept. */
  function MappedSku(prev: seq<string>, raw: string, key: string): string {
    match Decide(prev, raw, key)
    case Keep => key
    case Fill(s) => s
    case Rename(_, s) => s
  }

  /** The first `n` entries that belong to scope `scope`, in order. */
  function ScopeEntries(es: seq<Entry>, n: nat, scope: string): seq<Entry>
    requires n <= |es|
  {
    if n == 0 then []
    else ScopeEntries(es, n - 1, scope) + (if es[n - 1].scope == Some(scope) then [es[n - 1]] else [])
  }

  /** The trimmed SKUs of the first `n` entries that belong to scope `scope`, in order. */
  function ScopeKeys(es: seq<Entry>, n: nat, scope: string): seq<string>
    requires n <= |es|
  {
    if n == 0 then []
    else ScopeKeys(es, n - 1, scope) + (if es[n - 1].scope == Some(scope) then [es[n - 1].key] else [])
  }

  /** The decision for entry `i`; `None` when the pass skips it. */
  function OutcomeAt(es: seq<Entry>, i: nat): Option<Outcome>
    requires i < |es|
  {
    match es[i].scope
    case None => None
    case Some(k) => Some(Decide(ScopeKeys(es, i, k), es[i].sku, es[i].key))
  }

  /** The SKU cell of entry `i` after the pass. */
  function FinalAt(es: seq<Entry>, i: nat): string
    requires i < |es|
  {
    match es[i].scope
    case None => es[i].sku
    case Some(k) => FinalSku(ScopeKeys(es, i, k), es[i].sku, es[i].key)
  }

  /** The pass applied to the rows `s` of one scope on their own, in order. */
  function RenamedScope(s: seq<Entry>): (r: seq<string>)
    ensures |r| == |s|
  {
    seq(|s|, t requires 0 <= t < |s| => FinalSku(Keys(s[..t]), s[t].sku, s[t].key))
  }

  /** The final SKU cells of the first `n` entries of scope `scope`, in order. */
  function ScopeResults(es: seq<Entry>, n: nat, scope: string): seq<string>
    requires n <= |es|
  {
    if n == 0 then []
    else ScopeResults(es, n - 1, scope) + (if es[n - 1].scope == Some(scope) then [FinalAt(es, n - 1)] else [])
  }

  /** The SKU cells of the first `n` entries after the pass, in order. */
  function Finals(es: seq<Entry>, n: nat): (r: seq<string>)
    requires n <= |es|
    ensures |r| == n
  {
    if n == 0 then [] else Finals(es, n - 1) + [FinalAt(es, n - 1)]
  }

  /** The positions of the first `n` entries that belong to scope `scope`, in order. */
  function Positions(es: seq<Entry>, n: nat, scope: string): seq<nat>
    requires n <= |es|
  {
    if n == 0 then []
    else Positions(es, n - 1, scope) + (if es[n - 1].scope == Some(scope) then [n - 1] else [])
  }

  // ---- Counting ----

  /** The SKU counters after the trimmed SKUs `keys`: each non-empty one with its number of occurrences. */
  function CountsOf(keys: seq<string>): map<string, nat> {
    if keys == [] then map[]
    else
      var m := CountsOf(keys[..|keys| - 1]);
      var k := keys[|keys| - 1];
      if k == "" then m else m[k := if k in m then m[k] + 1 else 1]
  }

  lemma CountsOfSnoc(keys: seq<string>, k: string)
    ensures CountsOf(keys + [k]) == (if k == "" then CountsOf(keys)
      else CountsOf(keys)[k := if k in CountsOf(keys) then CountsOf(keys)[k] + 1 else 1])
  {
    assert (keys + [k])[..|keys|] == keys;
  }

  /** The counters hold exactly the non-empty SKUs seen, each with its number of occurrences. */
  lemma {:induction false} CountsOfSpec(keys: seq<string>)
    ensures forall k :: k in CountsOf(keys) <==> k != "" && Count(keys, k) > 0
    ensures forall k :: k in CountsOf(keys) ==> CountsOf(keys)[k] == Count(keys, k)
  {
    if keys != [] {
      CountsOfSpec(keys[..|keys| - 1]);
    }
  }

  /** The counters of a pass hold the counts of the trimmed SKUs `keys` seen so far. */
  ghost predicate Counters(keys: seq<string>, counts: map<string, nat>, emptyCount: nat) {
    counts == CountsOf(keys) && emptyCount == Count(keys, "")
  }

  /** An empty SKU: the counters give the fill prefix, and only the empty count moves. */
  lemma CountersOnEmpty(keys: seq<string>, counts: map<string, nat>, emptyCount: nat, raw: string)
    requires Counters(keys, counts, emptyCount) && Trim(raw) == ""
    ensures Decide(keys, raw, "") == Fill(GetNextPrefix(emptyCount))
    ensures Counters(keys + [""], counts, emptyCount + 1)
  {
    CountSnoc(keys, "", "");
    CountsOfSnoc(keys, "");
  }

  /** A SKU seen before: the counters give the rename prefix, and its count moves. */
  lemma CountersOnRepeat(keys: seq<string>, counts: map<string, nat>, emptyCount: nat, raw: string)
    requires Counters(keys, counts, emptyCount)
    requires Trim(raw) != "" && Trim(raw) in counts && counts[Trim(raw)] > 0
    ensures var key := Trim(raw);
      Decide(keys, raw, key) == Rename(key, GetNextPrefix(counts[key] - 1) + key)
      && Counters(keys + [key], counts[key := counts[key] + 1], emptyCount)
  {
    var key := Trim(raw);
    CountsOfSpec(keys);
    CountSnoc(keys, key, "");
    CountsOfSnoc(keys, key);
  }

  /** A SKU not seen before: the cell is kept and its count starts at 1. */
  lemma CountersOnFirst(keys: seq<string>, counts: map<string, nat>, emptyCount: nat, raw: string)
    requires Counters(keys, counts, emptyCount)
    requires Trim(raw) != "" && !(Trim(raw) in counts && counts[Trim(raw)] > 0)
    ensures var key := Trim(raw);
      Decide(keys, raw, key) == Keep && Counters(keys + [key], counts[key := 1], emptyCount)
  {
    var key := Trim(raw);
    CountsOfSpec(keys);
    CountSnoc(keys, key, "");
    CountsOfSnoc(keys, key);
  }

  lemma CountSnoc(s: seq<string>, x: string, key: string)
    ensures Count(s + [x], key) == Count(s, key) + (if x == key then 1 else 0)
  {
    assert (s + [x])[..|s|] == s;
  }

  lemma {:induction false} ScopeKeysAreKeys(es: seq<Entry>, n: nat, scope: string)
    requires n <= |es|
    ensures ScopeKeys(es, n, scope) == Keys(ScopeEntries(es, n, scope))
  {
    if n > 0 {
      ScopeKeysAreKeys(es, n - 1, scope);
      var prev := ScopeEntries(es, n - 1, scope);
      if es[n - 1].scope == Some(scope) {
        assert Keys(prev + [es[n - 1]]) == Keys(prev) + [es[n - 1].key];
      } else {
        assert ScopeEntries(es, n, scope) == prev;
      }
    }
  }

  /** The count of a key among the keys of a scope grows by one at each row of the scope with that key. */
  lemma ScopeKeysStep(es: seq<Entry>, n: nat, scope: string, key: string)
    requires n < |es|
    ensures Count(ScopeKeys(es, n + 1, scope), key)
            == Count(ScopeKeys(es, n, scope), key) + (if es[n].scope == Some(scope) && es[n].key == key then 1 else 0)
  {
    if es[n].scope == Some(scope) {
      CountSnoc(ScopeKeys(es, n, scope), es[n].key, key);
    } else {
      assert ScopeKeys(es, n + 1, scope) == ScopeKeys(es, n, scope);
    }
  }

  /** Counts among the keys of a scope only grow as more rows are seen. */
  lemma {:induction false} CountMonotone(es: seq<Entry>, a: nat, b: nat, scope: string, key: string)
    requires a <= b <= |es|
    ensures Count(ScopeKeys(es, a, scope), key) <= Count(ScopeKeys(es, b, scope), key)
  {
    if a < b {
      CountMonotone(es, a, b - 1, scope, key);
      ScopeKeysStep(es, b - 1, scope, key);
    }
  }

  lemma CountGrows(es: seq<Entry>, i: nat, j: nat, scope: string)
    requires i < j <= |es|
    requires es[i].scope == Some(scope)
    ensures Count(ScopeKeys(es, j, scope), es[i].key) >= Count(ScopeKeys(es, i, scope), es[i].key) + 1
  {
    var key := es[i].key;
    ScopeKeysStep(es, i, scope, key);
    CountMonotone(es, i + 1, j, scope, key);
  }


  lemma {:induction false} FinalsSpec(es: seq<Entry>, n: nat)
    requires n <= |es|
    ensures forall i :: 0 <= i < n ==> Finals(es, n)[i] == FinalAt(es, i)
  {
    if n > 0 {
      FinalsSpec(es, n - 1);
    }
  }

  // ---- The rule, stated by occurrence ----

  /**
   * Within one scope, the occurrence number of a trimmed SKU decides the
   * cell: the first row with a SKU keeps it, the k-th (k >= 2) gets prefix
   * k - 2, and the j-th empty one (from 1) gets prefix j - 1.
   */
  lemma OccurrenceRule(s: seq<Entry>, t: nat)
    requires t < |s|
    ensures var key := s[t].key; var occ := Count(Keys(s[..t + 1]), key);
      occ >= 1
      && (key == "" ==> RenamedScope(s)[t] == GetNextPrefix(occ - 1))
      && (key != "" && occ == 1 ==> RenamedScope(s)[t] == s[t].sku)
      && (key != "" && occ >= 2 ==> RenamedScope(s)[t] == GetNextPrefix(occ - 2) + key)
  {
    assert Keys(s[..t + 1]) == Keys(s[..t]) + [s[t].key];
    CountSnoc(Keys(s[..t]), s[t].key, s[t].key);
  }

  // ---- Distinct results for rows that shared a SKU ----

  /** A prefix followed by a trimmed, non-empty SKU is its own trim. */
  lemma PrefixedTrimmed(n: nat, key: string)
    requires key != "" && Trimmed(key)
    ensures Trim(GetNextPrefix(n) + key) == GetNextPrefix(n) + key
  {
    PrefixHasNoSpace(n);
    var p := GetNextPrefix(n);
    assert (p + key)[0] == p[0];
    assert (p + key)[|p + key| - 1] == key[|key| - 1];
    TrimFixpoint(p + key);
  }

  lemma PrefixTrimmed(n: nat)
    ensures Trim(GetNextPrefix(n)) == GetNextPrefix(n)
  {
    PrefixHasNoSpace(n);
    TrimFixpoint(GetNextPrefix(n));
  }

  /** A kept cell and a renamed cell of the same trimmed SKU differ. */
  lemma KeptDiffersFromRenamed(raw: string, n: nat)
    requires Trim(raw) != ""
    ensures raw != GetNextPrefix(n) + Trim(raw)
  {
    var key := Trim(raw);
    PrefixedTrimmed(n, key);
    if raw == GetNextPrefix(n) + key {
      assert |GetNextPrefix(n) + key| > |key|;
    }
  }

  /** Two prefixed forms of the same SKU are equal only for the same count. */
  lemma PrefixedInjective(m: nat, n: nat, key: string)
    requires GetNextPrefix(m) + key == GetNextPrefix(n) + key
    ensures m == n
  {
    var a := GetNextPrefix(m);
    var b := GetNextPrefix(n);
    assert |a| == |b|;
    assert a == (a + key)[..|a|];
    assert b == (b + key)[..|b|];
    PrefixInjective(m, n);
  }

  /**
   * Two rows sharing a trimmed SKU, the second one seeing more earlier rows
   * with it than the first, end with different SKU cells.
   */
  lemma DistinctDecisions(p1: seq<string>, raw1: string, p2: seq<string>, raw2: string, key: string)
    requires key == Trim(raw1) && key == Trim(raw2)
    requires Count(p1, key) < Count(p2, key)
    ensures FinalSku(p1, raw1, key) != FinalSku(p2, raw2, key)
  {
    var ci := Count(p1, key);
    var cj := Count(p2, key);
    if key == "" {
      FilledDistinct(ci, cj);
    } else if ci == 0 {
      KeptDiffersFromRenamed(raw1, cj - 1);
    } else {
      RenamedDistinct(ci - 1, cj - 1, key);
    }
  }

  lemma FilledDistinct(m: nat, n: nat)
    requires m != n
    ensures GetNextPrefix(m) != GetNextPrefix(n)
  {
    if GetNextPrefix(m) == GetNextPrefix(n) {
      PrefixInjective(m, n);
    }
  }

  lemma RenamedDistinct(m: nat, n: nat, key: string)
    requires m != n
    ensures GetNextPrefix(m) + key != GetNextPrefix(n) + key
  {
    if GetNextPrefix(m) + key == GetNextPrefix(n) + key {
      PrefixedInjective(m, n, key);
    }
  }


  /**
   * Two rows of one scope whose SKU cells trim to the same text (both empty
   * included) end with different SKU cells.
   */
  lemma DistinctWithinScope(es: seq<Entry>, i: nat, j: nat)
    requires i < j < |es|
    requires es[i].key == Trim(es[i].sku) && es[j].key == Trim(es[j].sku)
    requires es[i].scope.Some? && es[j].scope == es[i].scope
    requires es[i].key == es[j].key
    ensures FinalAt(es, i) != FinalAt(es, j)
  {
    var scope := es[i].scope.value;
    CountGrows(es, i, j, scope);
    DistinctDecisions(ScopeKeys(es, i, scope), es[i].sku, ScopeKeys(es, j, scope), es[j].sku, es[i].key);
  }

  /** A renamed cell never trims back to the SKU it was renamed from. */
  lemma RenamedDiffersFromKey(prev: seq<string>, raw: string, key: string)
    requires key != "" && Trimmed(key) && Count(prev, key) > 0
    ensures Trim(FinalSku(prev, raw, key)) != key
  {
    var p := GetNextPrefix(Count(prev, key) - 1);
    assert FinalSku(prev, raw, key) == p + key;
    PrefixedTrimmed(Count(prev, key) - 1, key);
    assert |p + key| > |key|;
  }

  /** A row with a non-empty SKU ends with a cell trimming to that SKU exactly when no earlier row had it. */
  lemma KeepsSkuIffFirst(prev: seq<string>, raw: string, key: string)
    requires key == Trim(raw) && key != ""
    ensures Trim(FinalSku(prev, raw, key)) == key <==> Count(prev, key) == 0
  {
    if Count(prev, key) > 0 {
      RenamedDiffersFromKey(prev, raw, key);
    }
  }

  /** Only the first row of a scope with a given non-empty trimmed SKU ends with a cell that trims to it. */
  lemma OnlyFirstKeepsSku(es: seq<Entry>, i: nat)
    requires i < |es| && es[i].key == Trim(es[i].sku) && es[i].key != ""
    requires es[i].scope.Some?
    ensures Trim(FinalAt(es, i)) == es[i].key <==> Count(ScopeKeys(es, i, es[i].scope.value), es[i].key) == 0
  {
    KeepsSkuIffFirst(ScopeKeys(es, i, es[i].scope.value), es[i].sku, es[i].key);
  }

  /** The SKU recorded in the product map is the final cell, trimmed, and is never empty. */
  lemma MappedIsTrimmedFinal(prev: seq<string>, raw: string, key: string)
    requires key == Trim(raw)
    ensures MappedSku(prev, raw, key) == Trim(FinalSku(prev, raw, key))
    ensures MappedSku(prev, raw, key) != ""
  {
    var n := Count(prev, key);
    if key == "" {
      PrefixTrimmed(n);
    } else if n > 0 {
      PrefixedTrimmed(n - 1, key);
    }
  }

  /** A row's SKU cell changes exactly when the rule does not keep it. */
  lemma ChangedIffNotKept(prev: seq<string>, raw: string, key: string)
    requires key == Trim(raw)
    ensures FinalSku(prev, raw, key) != raw <==> Decide(prev, raw, key) != Keep
  {
    var n := Count(prev, key);
    if key == "" {
      PrefixTrimmed(n);
    } else if n > 0 {
      KeptDiffersFromRenamed(raw, n - 1);
    }
  }

  /** A key counted among the keys of a scope comes from some row of the scope. */
  lemma {:induction false} CountedHasRow(es: seq<Entry>, n: nat, scope: string, key: string)
    requires n <= |es| && Count(ScopeKeys(es, n, scope), key) > 0
    ensures exists j :: 0 <= j < n && es[j].scope == Some(scope) && es[j].key == key
  {
    ScopeKeysStep(es, n - 1, scope, key);
    if !(es[n - 1].scope == Some(scope) && es[n - 1].key == key) {
      CountedHasRow(es, n - 1, scope, key);
    }
  }

  /** No earlier row of the scope has the key exactly when its count among the scope's keys is 0. */
  lemma CountZeroIffAbsent(es: seq<Entry>, n: nat, scope: string, key: string)
    requires n <= |es|
    ensures Count(ScopeKeys(es, n, scope), key) == 0
            <==> forall j :: 0 <= j < n && es[j].scope == Some(scope) ==> es[j].key != key
  {
    if Count(ScopeKeys(es, n, scope), key) > 0 {
      CountedHasRow(es, n, scope, key);
    } else {
      forall j | 0 <= j < n && es[j].scope == Some(scope)
        ensures es[j].key != key
      {
        if es[j].key == key {
          CountGrows(es, j, n, scope);
        }
      }
    }
  }


  // ---- Scope independence ----

  lemma RenamedScopeSnoc(s: seq<Entry>, x: Entry)
    ensures RenamedScope(s + [x]) == RenamedScope(s) + [FinalSku(Keys(s), x.sku, x.key)]
  {
    var l := RenamedScope(s + [x]);
    var r := RenamedScope(s) + [FinalSku(Keys(s), x.sku, x.key)];
    forall t | 0 <= t < |l|
      ensures l[t] == r[t]
    {
      if t < |s| {
        assert (s + [x])[..t] == s[..t];
      } else {
        assert (s + [x])[..t] == s;
      }
    }
  }

  /**
   * The final SKUs of a scope are the pass applied to that scope's own rows
   * alone: rows of other scopes, and where they stand, do not matter.
   */
  lemma {:induction false} ScopeIndependence(es: seq<Entry>, n: nat, scope: string)
    requires n <= |es|
    ensures ScopeResults(es, n, scope) == RenamedScope(ScopeEntries(es, n, scope))
  {
    if n > 0 {
      ScopeIndependence(es, n - 1, scope);
      var prev := ScopeEntries(es, n - 1, scope);
      if es[n - 1].scope == Some(scope) {
        ScopeKeysAreKeys(es, n - 1, scope);
        RenamedScopeSnoc(prev, es[n - 1]);
        assert ScopeEntries(es, n, scope) == prev + [es[n - 1]];
        assert ScopeResults(es, n, scope) == ScopeResults(es, n - 1, scope) + [FinalAt(es, n - 1)];
      } else {
        assert ScopeEntries(es, n, scope) == prev;
        assert ScopeResults(es, n, scope) == ScopeResults(es, n - 1, scope);
      }
    }
  }

  // ---- Already clean input ----

  lemma {:induction false} CountAbsent(keys: seq<string>, key: string)
    requires forall u :: 0 <= u < |keys| ==> keys[u] != key
    ensures Count(keys, key) == 0
  {
    if keys != [] {
      CountAbsent(keys[..|keys| - 1], key);
    }
  }

  /**
   * When every SKU of a scope is non-empty and no two trim to the same text,
   * the pass keeps every cell: cleaned output run through again yields no
   * fill and no rename.
   */
  lemma UniqueScopeUnchanged(s: seq<Entry>)
    requires forall t :: 0 <= t < |s| ==> s[t].key != ""
    requires forall t, u :: 0 <= t < u < |s| ==> s[t].key != s[u].key
    ensures forall t :: 0 <= t < |s| ==> Decide(Keys(s[..t]), s[t].sku, s[t].key) == Keep
    ensures RenamedScope(s) == seq(|s|, t requires 0 <= t < |s| => s[t].sku)
  {
    forall t | 0 <= t < |s|
      ensures Decide(Keys(s[..t]), s[t].sku, s[t].key) == Keep
    {
      CountAbsent(Keys(s[..t]), s[t].key);
    }
  }

  // ---- No uniqueness across different original SKUs ----

  /**
   * A renamed SKU is not checked against the other SKUs of the scope: with
   * SKUs "aABC", "ABC", "ABC" the third row becomes "aABC", like the first.
   */
  lemma RenameCanCollide()
    ensures var s := [MakeEntry(Some(""), "aABC"), MakeEntry(Some(""), "ABC"), MakeEntry(Some(""), "ABC")];
      RenamedScope(s) == ["aABC", "ABC", "aABC"]
  {
    TrimFixpoint("aABC");
    TrimFixpoint("ABC");
    var s := [MakeEntry(Some(""), "aABC"), MakeEntry(Some(""), "ABC"), MakeEntry(Some(""), "ABC")];
    assert Keys(s[..0]) == [];
    assert Keys(s[..1]) == ["aABC"];
    assert Keys(s[..2]) == ["aABC", "ABC"];
    assert Count(["aABC"], "ABC") == 0;
    assert Count(["aABC", "ABC"], "ABC") == 1 by {
      assert ["aABC", "ABC"][..1] == ["aABC"];
    }
    assert GetNextPrefix(0) == "a";
    var r := RenamedScope(s);
    assert r[0] == "aABC";
    assert r[1] == "ABC";
    assert r[2] == "a" + "ABC" == "aABC";
    assert r == ["aABC", "ABC", "aABC"];
  }

  /** A filled SKU is not checked either: with SKUs "a" and "" the second row becomes "a" too. */
  lemma FillCanCollide()
    ensures var s := [MakeEntry(Some(""), "a"), MakeEntry(Some(""), "")];
      RenamedScope(s) == ["a", "a"]
  {
    TrimFixpoint("a");
    TrimFixpoint("");
    var s := [MakeEntry(Some(""), "a"), MakeEntry(Some(""), "")];
    assert Keys(s[..0]) == [];
    assert Keys(s[..1]) == ["a"];
    assert Count(["a"], "") == 0;
  }

  // ---- Positions of a scope ----

  /** The positions of a scope are increasing, lie in the scope, and hold every member of it. */
  lemma {:induction false} PositionsSpec(es: seq<Entry>, n: nat, scope: string)
    requires n <= |es|
    ensures var p := Positions(es, n, scope);
      (forall t :: 0 <= t < |p| ==> p[t] < n && es[p[t]].scope == Some(scope))
      && (forall t, u :: 0 <= t < u < |p| ==> p[t] < p[u])
      && (forall j :: 0 <= j < n && es[j].scope == Some(scope) ==> j in p)
  {
    if n > 0 {
      PositionsSpec(es, n - 1, scope);
    }
  }

  /** No member of the scope lies between the (t-1)-th and the t-th position, or after the last. */
  lemma PositionsGap(es: seq<Entry>, scope: string, t: nat, j: nat)
    requires t <= |Positions(es, |es|, scope)|
    requires (if t == 0 then 0 else Positions(es, |es|, scope)[t - 1] + 1) <= j
    requires j < (if t < |Positions(es, |es|, scope)| then Positions(es, |es|, scope)[t] else |es|)
    requires j < |es|
    ensures es[j].scope != Some(scope)
  {
    var p := Positions(es, |es|, scope);
    PositionsSpec(es, |es|, scope);
    forall u | 0 <= u < |p|
      ensures p[u] != j
    {
      if u < t {
        assert p[u] <= p[t - 1];
      } else {
        assert p[t] <= p[u];
      }
    }
  }

  /** Entries outside the scope leave its keys alone. */
  lemma {:induction false} ScopeKeysSkip(es: seq<Entry>, a: nat, b: nat, scope: string)
    requires a <= b <= |es|
    requires forall j :: a <= j < b ==> es[j].scope != Some(scope)
    ensures ScopeKeys(es, b, scope) == ScopeKeys(es, a, scope)
  {
    if b > a {
      ScopeKeysSkip(es, a, b - 1, scope);
    }
  }
}
