/**
 * `processProductos`: the product sheet normaliser. It checks that the ten
 * required columns are present, keeps the non-blank rows projected onto
 * those columns, turns the price into a non-negative number, fills empty
 * SKUs and renames duplicate SKUs across the whole file, records the final
 * SKU of every product ID, and drops the ID column from the output.
 *
 * Rows without a product ID are logged as omitted but stay in the output
 * with their SKU untouched, and their SKUs do not take part in the counting.
 */
module Productos {
  import opened Wrappers
  import opened Text
  import opened SkuPrefix
  import opened Sheet
  import opened Dedup

  /** The required columns, in output order before the ID column is dropped. */
  const Required: seq<string> :=
    ["ID", "Sección", "SKU Sección", "SKU Name Sección", "Nombre",
     "Precio", "SKU", "SKU Name", "Descripción", "Imagen"]

  const IdCol: nat := 0
  const PriceCol: nat := 5
  const SkuCol: nat := 6

  /** The test the missing-column filter applies to each required name. */
  function AbsentFrom(header: seq<string>): string -> bool {
    name => name !in header
  }

  /** The names among `names` that the header lacks, in the order of `names`. */
  function MissingOf(names: seq<string>, header: seq<string>): (r: seq<string>)
    ensures forall x :: x in r <==> x in names && x !in header
    ensures Picked(names, r, Kept(names, AbsentFrom(header)), AbsentFrom(header))
  {
    FilterInOrder(names, AbsentFrom(header));
    Filter(names, AbsentFrom(header))
  }

  function Missing(header: seq<string>): seq<string> {
    MissingOf(Required, header)
  }

  /** A header with every required column. */
  predicate Complete(header: seq<string>) {
    Missing(header) == []
  }

  /** The required cells of one row: a position past the row's end reads as the empty string. */
  function Project(row: seq<string>, indices: seq<int>): (r: seq<string>)
    ensures |r| == |indices|
  {
    seq(|indices|, k requires 0 <= k < |indices| =>
      if 0 <= indices[k] < |row| then row[indices[k]] else "")
  }

  /** Every row has one cell per required column. */
  predicate Shaped(o: seq<seq<string>>) {
    forall i :: 0 <= i < |o| ==> |o[i]| == |Required|
  }

  /** `orderedContent`: the non-blank data rows, projected onto the required columns. */
  function Ordered(content: seq<seq<string>>, header: seq<string>): (o: seq<seq<string>>)
    ensures Shaped(o)
    ensures |o| == |NonBlankRows(content)|
    ensures forall i, k :: 0 <= i < |o| && 0 <= k < |Required| ==>
      o[i][k] == (var idx := IndexOf(header, Required[k]);
                  if 0 <= idx < |NonBlankRows(content)[i]| then NonBlankRows(content)[i][idx] else "")
  {
    var kept := NonBlankRows(content);
    seq(|kept|, i requires 0 <= i < |kept| => Project(kept[i], IndicesOf(Required, header)))
  }

  /** The trimmed product ID of row `i`; empty when the row has none. */
  function ProductId(o: seq<seq<string>>, i: nat): string
    requires Shaped(o) && i < |o|
  {
    Trim(o[i][IdCol])
  }

  /**
   * The rows as the SKU pass sees them: a row with a product ID belongs to
   * the single file-wide scope "", a row without one is skipped.
   */
  function Entries(o: seq<seq<string>>): (es: seq<Entry>)
    requires Shaped(o)
    ensures |es| == |o|
  {
    seq(|o|, i requires 0 <= i < |o| =>
      MakeEntry(if ProductId(o, i) == "" then None else Some(""), o[i][SkuCol]))
  }

  /** A working row after the price pass. */
  function PricedRow(row: seq<string>, parse: Parser): (r: seq<Cell>)
    requires |row| == |Required|
  {
    TextRow(row)[PriceCol := Number(Coerce(parse, Text(row[PriceCol])))]
  }

  /** Output row `i`: priced, with its final SKU, and without the ID column. */
  function OutputRow(o: seq<seq<string>>, i: nat, parse: Parser): seq<Cell>
    requires Shaped(o) && i < |o|
  {
    PricedRow(o[i], parse)[SkuCol := Text(FinalAt(Entries(o), i))][1..]
  }

  function OutputRows(o: seq<seq<string>>, parse: Parser): (r: seq<seq<Cell>>)
    requires Shaped(o)
    ensures |r| == |o|
  {
    seq(|o|, i requires 0 <= i < |o| => OutputRow(o, i, parse))
  }

  // ---- The passes over the working rows ----

  /** The price pass: every row's price cell becomes `parseFloat` of it, or 0 when that is NaN or negative. */
  method CoercePrices(a: array<seq<Cell>>, parse: Parser)
    requires forall i :: 0 <= i < a.Length ==> |a[i]| == |Required|
    modifies a
    ensures forall i :: 0 <= i < a.Length ==>
      a[i] == old(a[i])[PriceCol := Number(Coerce(parse, old(a[i])[PriceCol]))]
  {
    var i := 0;
    while i < a.Length
      invariant 0 <= i <= a.Length
      invariant forall j :: 0 <= j < i ==>
        a[j] == old(a[j])[PriceCol := Number(Coerce(parse, old(a[j])[PriceCol]))]
      invariant forall j :: i <= j < a.Length ==> a[j] == old(a[j])
    {
      a[i] := a[i][PriceCol := Number(Coerce(parse, a[i][PriceCol]))];
      i := i + 1;
    }
  }

  /** What the reference pass knows after some rows: the trimmed SKUs counted so far, its log, its map and the SKU column. */
  datatype State = State(keys: seq<string>, log: seq<LogEntry>, idToSku: map<string, string>, skus: seq<string>)

  /** The reference pass on row `i`, whose trimmed ID is `id` and whose SKU cell is `raw`, by the rule of `Dedup`. */
  function RefStep(s: State, i: nat, id: string, raw: string): State {
    var key := Trim(raw);
    if id == "" then s.(log := s.log + [Omitted(i + 2)], skus := s.skus + [raw])
    else
      var k := s.keys + [key];
      match Decide(s.keys, raw, key)
      case Keep => s.(keys := k, idToSku := s.idToSku[id := key], skus := s.skus + [raw])
      case Fill(sku) => s.(keys := k, log := s.log + [Filled(i + 2, id, sku)], idToSku := s.idToSku[id := sku], skus := s.skus + [sku])
      case Rename(original, sku) => s.(keys := k, log := s.log + [Renamed(i + 2, id, original, sku)], idToSku := s.idToSku[id := sku], skus := s.skus + [sku])
  }

  function Ref(o: seq<seq<string>>, n: nat): State
    requires Shaped(o) && n <= |o|
  {
    if n == 0 then State([], [], map[], [])
    else RefStep(Ref(o, n - 1), n - 1, ProductId(o, n - 1), o[n - 1][SkuCol])
  }

  /** The pass's counters, log and map agree with the reference state `s`. */
  ghost predicate InSync(s: State, counts: map<string, nat>, emptyCount: nat, log: seq<LogEntry>, idToSku: map<string, string>) {
    counts == CountsOf(s.keys) && emptyCount == Count(s.keys, "") && log == s.log && idToSku == s.idToSku
  }

  method SkuRow(row: seq<Cell>, i: nat, counts: map<string, nat>, emptyCount: nat,
                log: seq<LogEntry>, idToSku: map<string, string>, ghost s: State)
    returns (row': seq<Cell>, counts': map<string, nat>, emptyCount': nat,
             log': seq<LogEntry>, idToSku': map<string, string>, sku: string)
    requires |row| == |Required| && row[IdCol].Text? && row[SkuCol].Text?
    requires InSync(s, counts, emptyCount, log, idToSku)
    ensures var s' := RefStep(s, i, Trim(row[IdCol].s), row[SkuCol].s);
      InSync(s', counts', emptyCount', log', idToSku') && s'.skus == s.skus + [sku]
    ensures row' == row[SkuCol := Text(sku)]
  {
    var id := Trim(row[IdCol].s);
    var raw := row[SkuCol].s;
    var key := Trim(raw);
    row', counts', emptyCount', log', idToSku' := row, counts, emptyCount, log, idToSku;
    sku := raw;
    if id == "" {
      SyncOmitted(s, i, id, raw, counts, emptyCount, log, idToSku);
      log' := log + [Omitted(i + 2)];
    } else if key == "" {
      SyncFilled(s, i, id, raw, counts, emptyCount, log, idToSku);
      sku := GetNextPrefix(emptyCount);
      row' := row[SkuCol := Text(sku)];
      log' := log + [Filled(i + 2, id, sku)];
      idToSku' := idToSku[id := sku];
      emptyCount' := emptyCount + 1;
    } else if key in counts && counts[key] > 0 {
      SyncRenamed(s, i, id, raw, counts, emptyCount, log, idToSku);
      sku := GetNextPrefix(counts[key] - 1) + key;
      log' := log + [Renamed(i + 2, id, key, sku)];
      row' := row[SkuCol := Text(sku)];
      idToSku' := idToSku[id := sku];
      counts' := counts[key := counts[key] + 1];
    } else {
      SyncKept(s, i, id, raw, counts, emptyCount, log, idToSku);
      counts' := counts[key := 1];
      idToSku' := idToSku[id := key];
    }
  }

  lemma SyncOmitted(s: State, i: nat, id: string, raw: string, counts: map<string, nat>, emptyCount: nat,
                    log: seq<LogEntry>, idToSku: map<string, string>)
    requires InSync(s, counts, emptyCount, log, idToSku) && id == ""
    ensures InSync(RefStep(s, i, id, raw), counts, emptyCount, log + [Omitted(i + 2)], idToSku)
    ensures RefStep(s, i, id, raw).skus == s.skus + [raw]
  {
  }

  lemma SyncFilled(s: State, i: nat, id: string, raw: string, counts: map<string, nat>, emptyCount: nat,
                   log: seq<LogEntry>, idToSku: map<string, string>)
    requires InSync(s, counts, emptyCount, log, idToSku) && id != "" && Trim(raw) == ""
    ensures var sku := GetNextPrefix(emptyCount);
      InSync(RefStep(s, i, id, raw), counts, emptyCount + 1, log + [Filled(i + 2, id, sku)], idToSku[id := sku])
      && RefStep(s, i, id, raw).skus == s.skus + [sku]
  {
    CountSnoc(s.keys, "", "");
    CountsOfSnoc(s.keys, "");
  }

  lemma SyncRenamed(s: State, i: nat, id: string, raw: string, counts: map<string, nat>, emptyCount: nat,
                    log: seq<LogEntry>, idToSku: map<string, string>)
    requires InSync(s, counts, emptyCount, log, idToSku) && id != ""
    requires Trim(raw) != "" && Trim(raw) in counts && counts[Trim(raw)] > 0
    ensures var key := Trim(raw);
      var sku := GetNextPrefix(counts[key] - 1) + key;
      InSync(RefStep(s, i, id, raw), counts[key := counts[key] + 1], emptyCount,
             log + [Renamed(i + 2, id, key, sku)], idToSku[id := sku])
      && RefStep(s, i, id, raw).skus == s.skus + [sku]
  {
    var key := Trim(raw);
    CountsOfSpec(s.keys);
    CountSnoc(s.keys, key, "");
    CountsOfSnoc(s.keys, key);
  }

  lemma SyncKept(s: State, i: nat, id: string, raw: string, counts: map<string, nat>, emptyCount: nat,
                 log: seq<LogEntry>, idToSku: map<string, string>)
    requires InSync(s, counts, emptyCount, log, idToSku) && id != ""
    requires Trim(raw) != "" && !(Trim(raw) in counts && counts[Trim(raw)] > 0)
    ensures var key := Trim(raw);
      InSync(RefStep(s, i, id, raw), counts[key := 1], emptyCount, log, idToSku[id := key])
      && RefStep(s, i, id, raw).skus == s.skus + [raw]
  {
    var key := Trim(raw);
    CountsOfSpec(s.keys);
    CountSnoc(s.keys, key, "");
    CountsOfSnoc(s.keys, key);
  }

  method ScanSkus(cells: seq<seq<Cell>>, ghost o: seq<seq<string>>)
    returns (rows: seq<seq<Cell>>, log: seq<LogEntry>, idToSku: map<string, string>)
    requires Shaped(o) && |cells| == |o|
    requires forall i :: 0 <= i < |cells| ==>
      |cells[i]| == |Required| && cells[i][IdCol] == Text(o[i][IdCol]) && cells[i][SkuCol] == Text(o[i][SkuCol])
    ensures |rows| == |cells| && |Ref(o, |o|).skus| == |o|
    ensures forall i :: 0 <= i < |cells| ==> rows[i] == cells[i][SkuCol := Text(Ref(o, |o|).skus[i])]
    ensures log == Ref(o, |o|).log && idToSku == Ref(o, |o|).idToSku
  {
    var counts: map<string, nat> := map[];
    var emptyCount: nat := 0;
    log := [];
    idToSku := map[];
    rows := [];
    ghost var skus: seq<string> := [];
    var i := 0;
    while i < |cells|
      invariant 0 <= i <= |cells| && |skus| == i && |rows| == i
      invariant forall j :: 0 <= j < i ==> rows[j] == cells[j][SkuCol := Text(skus[j])]
      invariant Agrees(o, i, counts, emptyCount, log, idToSku, skus)
    {
      var row, sku;
      row, counts, emptyCount, log, idToSku, sku := SkuStep(cells[i], i, counts, emptyCount, log, idToSku, o, skus);
      rows := rows + [row];
      skus := skus + [sku];
      i := i + 1;
    }
  }

  ghost predicate Agrees(o: seq<seq<string>>, n: nat, counts: map<string, nat>, emptyCount: nat,
                         log: seq<LogEntry>, idToSku: map<string, string>, skus: seq<string>)
    requires Shaped(o) && n <= |o|
  {
    InSync(Ref(o, n), counts, emptyCount, log, idToSku) && skus == Ref(o, n).skus
  }

  method SkuStep(row: seq<Cell>, i: nat, counts: map<string, nat>, emptyCount: nat,
                 log: seq<LogEntry>, idToSku: map<string, string>, ghost o: seq<seq<string>>, ghost skus: seq<string>)
    returns (row': seq<Cell>, counts': map<string, nat>, emptyCount': nat,
             log': seq<LogEntry>, idToSku': map<string, string>, sku: string)
    requires Shaped(o) && i < |o|
    requires |row| == |Required| && row[IdCol] == Text(o[i][IdCol]) && row[SkuCol] == Text(o[i][SkuCol])
    requires Agrees(o, i, counts, emptyCount, log, idToSku, skus)
    ensures Agrees(o, i + 1, counts', emptyCount', log', idToSku', skus + [sku])
    ensures row' == row[SkuCol := Text(sku)]
  {
    RefNext(o, i, Ref(o, i), row);
    row', counts', emptyCount', log', idToSku', sku := SkuRow(row, i, counts, emptyCount, log, idToSku, Ref(o, i));
  }

  lemma RefNext(o: seq<seq<string>>, i: nat, s: State, row: seq<Cell>)
    requires Shaped(o) && i < |o| && s == Ref(o, i)
    requires |row| == |Required| && row[IdCol] == Text(o[i][IdCol]) && row[SkuCol] == Text(o[i][SkuCol])
    ensures Ref(o, i + 1) == RefStep(s, i, Trim(row[IdCol].s), row[SkuCol].s)
  {
  }

  /**
   * `processProductos(data)`, with `parseFloat` passed in as `parse`. Tables
   * shorter than two rows give nothing; a header without some required column
   * gives only the log line naming the missing ones.
   */
  method ProcessProductos(data: seq<seq<string>>, parse: Parser)
    returns (rows: seq<seq<Cell>>, log: seq<LogEntry>, idToSku: map<string, string>)
    ensures |data| < 2 ==> rows == [] && log == [] && idToSku == map[]
    ensures |data| >= 2 && !Complete(TrimRow(data[0])) ==>
      rows == [] && log == [MissingColumns(Missing(TrimRow(data[0])))] && idToSku == map[]
    ensures |data| >= 2 && Complete(TrimRow(data[0])) ==>
      var o := Ordered(data[1..], TrimRow(data[0]));
      rows == OutputRows(o, parse) && log == Ref(o, |o|).log && idToSku == Ref(o, |o|).idToSku
  {
    if |data| < 2 {
      return [], [], map[];
    }
    var header := TrimRow(data[0]);
    var indices := IndicesOf(Required, header);
    MissingIsAbsent(header);
    if exists k :: 0 <= k < |indices| && indices[k] == -1 {
      return [], [MissingColumns(Missing(header))], map[];
    }
    var o := Ordered(data[1..], header);
    rows, log, idToSku := NormaliseRows(o, parse);
  }

  /** The price pass, the SKU pass and the removal of the ID column over the ordered rows `o`. */
  method NormaliseRows(o: seq<seq<string>>, parse: Parser)
    returns (rows: seq<seq<Cell>>, log: seq<LogEntry>, idToSku: map<string, string>)
    requires Shaped(o)
    ensures rows == OutputRows(o, parse) && log == Ref(o, |o|).log && idToSku == Ref(o, |o|).idToSku
  {
    var priced := PriceRows(o, parse);
    var skued;
    skued, log, idToSku := ScanSkus(priced, o);
    RefFinals(o);
    rows := seq(|skued|, i requires 0 <= i < |skued| => skued[i][1..]);
  }

  /** The working rows after the price pass. */
  method PriceRows(o: seq<seq<string>>, parse: Parser) returns (priced: seq<seq<Cell>>)
    requires Shaped(o)
    ensures |priced| == |o| && forall i :: 0 <= i < |o| ==> priced[i] == PricedRow(o[i], parse)
  {
    var a := new seq<Cell>[|o|](i requires 0 <= i < |o| => TextRow(o[i]));
    CoercePrices(a, parse);
    priced := a[..];
  }

  // ---- Lemmas ----

  /** One step of the reference pass in the terms of `Dedup`: the row's decision, its final cell and its mapped SKU. */
  lemma RefStepFacts(s: State, i: nat, id: string, raw: string)
    ensures var t := RefStep(s, i, id, raw); var key := Trim(raw);
      t.keys == (if id == "" then s.keys else s.keys + [key])
      && t.skus == s.skus + [if id == "" then raw else FinalSku(s.keys, raw, key)]
      && t.idToSku == (if id == "" then s.idToSku else s.idToSku[id := MappedSku(s.keys, raw, key)])
  {
  }

  /** The reference state after `n` entries is the one `Dedup` describes for the scope "". */
  ghost predicate IsDedup(es: seq<Entry>, n: nat, s: State)
    requires n <= |es|
  {
    s.keys == ScopeKeys(es, n, "") && s.skus == Finals(es, n)
  }

  lemma DedupStep(o: seq<seq<string>>, n: nat, s: State)
    requires Shaped(o) && n < |o|
    requires IsDedup(Entries(o), n, s)
    ensures IsDedup(Entries(o), n + 1, RefStep(s, n, ProductId(o, n), o[n][SkuCol]))
  {
    RefStepFacts(s, n, ProductId(o, n), o[n][SkuCol]);
  }



  // ---- What the SKU pass promises ----

  /** Two rows with a product ID whose SKU cells trim to the same text (both empty included) end with different SKUs. */
  lemma ProductSkusDistinct(o: seq<seq<string>>, i: nat, j: nat)
    requires Shaped(o) && i < j < |o|
    requires ProductId(o, i) != "" && ProductId(o, j) != ""
    requires Trim(o[i][SkuCol]) == Trim(o[j][SkuCol])
    ensures FinalAt(Entries(o), i) != FinalAt(Entries(o), j)
  {
    DistinctWithinScope(Entries(o), i, j);
  }

  /**
   * A row with a product ID and a non-empty SKU ends with a SKU that trims to
   * its own exactly when no earlier row with a product ID had that SKU.
   */
  lemma OnlyFirstProductKeepsSku(o: seq<seq<string>>, i: nat)
    requires Shaped(o) && i < |o|
    requires ProductId(o, i) != "" && Trim(o[i][SkuCol]) != ""
    ensures Trim(FinalAt(Entries(o), i)) == Trim(o[i][SkuCol])
            <==> forall j :: 0 <= j < i && ProductId(o, j) != "" ==> Trim(o[j][SkuCol]) != Trim(o[i][SkuCol])
  {
    var es := Entries(o);
    OnlyFirstKeepsSku(es, i);
    CountZeroIffAbsent(es, i, "", es[i].key);
    AbsentAmongProducts(o, i, es[i].key);
  }

  /** "No earlier entry of scope "" has the key", read back as a statement about the rows. */
  lemma AbsentAmongProducts(o: seq<seq<string>>, n: nat, key: string)
    requires Shaped(o) && n <= |o|
    ensures (forall j :: 0 <= j < n && Entries(o)[j].scope == Some("") ==> Entries(o)[j].key != key)
            <==> (forall j :: 0 <= j < n && ProductId(o, j) != "" ==> Trim(o[j][SkuCol]) != key)
  {
    var es := Entries(o);
    if forall j :: 0 <= j < n && es[j].scope == Some("") ==> es[j].key != key {
      forall j | 0 <= j < n && ProductId(o, j) != ""
        ensures Trim(o[j][SkuCol]) != key
      {
        assert es[j].scope == Some("");
      }
    }
    if forall j :: 0 <= j < n && ProductId(o, j) != "" ==> Trim(o[j][SkuCol]) != key {
      forall j | 0 <= j < n && es[j].scope == Some("")
        ensures es[j].key != key
      {
        assert ProductId(o, j) != "";
      }
    }
  }




  /** Row `i` is the last of the first `n` rows with its product ID. */
  predicate LastWithId(o: seq<seq<string>>, n: nat, i: nat)
    requires Shaped(o) && i < n <= |o|
  {
    forall j :: i < j < n ==> ProductId(o, j) != ProductId(o, i)
  }

  /** Every key of the product map is a non-empty product ID of the first `n` rows, mapped to a non-empty SKU. */
  ghost predicate MapKeysSeen(o: seq<seq<string>>, n: nat, m: map<string, string>)
    requires Shaped(o) && n <= |o|
  {
    forall id :: id in m ==> id != "" && m[id] != "" && exists i :: 0 <= i < n && ProductId(o, i) == id
  }

  /**
   * The last of the first `n` rows with a given product ID decides its entry:
   * that row's final SKU cell `finals[i]`, trimmed.
   */
  ghost predicate MapValuesLast(o: seq<seq<string>>, n: nat, m: map<string, string>, finals: seq<string>)
    requires Shaped(o) && n <= |o| && n <= |finals|
  {
    forall i :: 0 <= i < n && ProductId(o, i) != "" && LastWithId(o, n, i) ==>
      ProductId(o, i) in m && m[ProductId(o, i)] == Trim(finals[i])
  }

  ghost predicate MapsLast(o: seq<seq<string>>, n: nat, m: map<string, string>)
    requires Shaped(o) && n <= |o|
  {
    MapKeysSeen(o, n, m) && MapValuesLast(o, n, m, Finals(Entries(o), |o|))
  }

  /** The entry the pass records for row `n`, which has a product ID. */
  lemma MappedAt(o: seq<seq<string>>, n: nat, s: State)
    requires Shaped(o) && n < |o| && ProductId(o, n) != ""
    requires IsDedup(Entries(o), n, s)
    ensures var raw := o[n][SkuCol];
      MappedSku(s.keys, raw, Trim(raw)) == Trim(FinalAt(Entries(o), n)) && MappedSku(s.keys, raw, Trim(raw)) != ""
  {
    var raw := o[n][SkuCol];
    MappedIsTrimmedFinal(s.keys, raw, Trim(raw));
  }

  lemma MapKeysStep(o: seq<seq<string>>, n: nat, m: map<string, string>, v: string)
    requires Shaped(o) && n < |o|
    requires MapKeysSeen(o, n, m)
    requires ProductId(o, n) != "" && v != ""
    ensures MapKeysSeen(o, n + 1, m[ProductId(o, n) := v])
  {
    var id := ProductId(o, n);
    var m' := m[id := v];
    forall k | k in m'
      ensures k != "" && m'[k] != "" && exists i :: 0 <= i < n + 1 && ProductId(o, i) == k
    {
      if k != id {
        var i :| 0 <= i < n && ProductId(o, i) == k;
      }
    }
  }

  lemma MapValuesStep(o: seq<seq<string>>, n: nat, m: map<string, string>, v: string, finals: seq<string>)
    requires Shaped(o) && n < |o| && n < |finals|
    requires MapValuesLast(o, n, m, finals)
    requires ProductId(o, n) != "" && v == Trim(finals[n])
    ensures MapValuesLast(o, n + 1, m[ProductId(o, n) := v], finals)
  {
    var id := ProductId(o, n);
    forall i | 0 <= i < n + 1 && ProductId(o, i) != "" && LastWithId(o, n + 1, i)
      ensures ProductId(o, i) in m[id := v] && m[id := v][ProductId(o, i)] == Trim(finals[i])
    {
      if i < n {
        assert ProductId(o, i) != id;
        assert LastWithId(o, n, i);
      }
    }
  }

  lemma MapKeysSkip(o: seq<seq<string>>, n: nat, m: map<string, string>)
    requires Shaped(o) && n < |o|
    requires MapKeysSeen(o, n, m)
    ensures MapKeysSeen(o, n + 1, m)
  {
    forall k | k in m
      ensures exists i :: 0 <= i < n + 1 && ProductId(o, i) == k
    {
      var i :| 0 <= i < n && ProductId(o, i) == k;
    }
  }

  lemma MapValuesSkip(o: seq<seq<string>>, n: nat, m: map<string, string>, finals: seq<string>)
    requires Shaped(o) && n < |o| && n < |finals|
    requires MapValuesLast(o, n, m, finals) && ProductId(o, n) == ""
    ensures MapValuesLast(o, n + 1, m, finals)
  {
    forall i | 0 <= i < n + 1 && ProductId(o, i) != "" && LastWithId(o, n + 1, i)
      ensures LastWithId(o, n, i)
    {
    }
  }

  lemma MapsLastStep(o: seq<seq<string>>, n: nat, s: State)
    requires Shaped(o) && n < |o|
    requires IsDedup(Entries(o), n, s) && MapsLast(o, n, s.idToSku)
    ensures MapsLast(o, n + 1, RefStep(s, n, ProductId(o, n), o[n][SkuCol]).idToSku)
  {
    var id := ProductId(o, n);
    var raw := o[n][SkuCol];
    RefStepFacts(s, n, id, raw);
    if id == "" {
      MapKeysSkip(o, n, s.idToSku);
      MapValuesSkip(o, n, s.idToSku, Finals(Entries(o), |o|));
    } else {
      var v := MappedSku(s.keys, raw, Trim(raw));
      MappedAt(o, n, s);
      MapKeysStep(o, n, s.idToSku, v);
      FinalsSpec(Entries(o), |o|);
      MapValuesStep(o, n, s.idToSku, v, Finals(Entries(o), |o|));
    }
  }



  /** The log lines of the SKU pass, which name a spreadsheet row. */
  predicate RowEntry(e: LogEntry) {
    e.Omitted? || e.Filled? || e.Renamed?
  }

  /** Some line of `log` names spreadsheet row `r`. */
  predicate Logged(log: seq<LogEntry>, r: nat) {
    exists a :: 0 <= a < |log| && RowEntry(log[a]) && log[a].row == r
  }

  /**
   * The line `e` tells the truth about its row, whose final SKU cell is
   * `finals[e.row - 2]`: an omitted row has no product ID; a filled row has
   * one and a blank SKU; a renamed row has one and a non-empty SKU, named
   * trimmed as the original.
   */
  predicate Describes(o: seq<seq<string>>, e: LogEntry, finals: seq<string>)
    requires Shaped(o) && |finals| == |o| && RowEntry(e) && 2 <= e.row < |o| + 2
  {
    var i := e.row - 2;
    match e
    case Omitted(_) => ProductId(o, i) == ""
    case Filled(_, id, sku) => id == ProductId(o, i) && id != "" && Trim(o[i][SkuCol]) == "" && sku == finals[i]
    case Renamed(_, id, original, sku) =>
      id == ProductId(o, i) && id != "" && original == Trim(o[i][SkuCol]) && original != "" && sku == finals[i]
  }

  /**
   * The log after `n` rows: one truthful line per row, in row order, for
   * exactly the rows that have no product ID or whose SKU cell changed.
   */
  ghost predicate LogFaithful(o: seq<seq<string>>, n: nat, log: seq<LogEntry>, finals: seq<string>)
    requires Shaped(o) && n <= |o| && |finals| == |o|
  {
    (forall a :: 0 <= a < |log| ==>
       RowEntry(log[a]) && 2 <= log[a].row < n + 2 && Describes(o, log[a], finals))
    && (forall a, b :: 0 <= a < b < |log| && RowEntry(log[a]) && RowEntry(log[b]) ==> log[a].row < log[b].row)
    && (forall i :: 0 <= i < n ==> (Logged(log, i + 2) <==> ProductId(o, i) == "" || finals[i] != o[i][SkuCol]))
  }

  /** Appending a line for row `e.row` logs that row and leaves the others as they were. */
  lemma LoggedAppend(log: seq<LogEntry>, e: LogEntry, r: nat)
    requires RowEntry(e)
    ensures Logged(log + [e], r) <==> r == e.row || Logged(log, r)
  {
    var log' := log + [e];
    if r == e.row {
      assert log'[|log|] == e;
    } else {
      if Logged(log', r) {
        var a :| 0 <= a < |log'| && RowEntry(log'[a]) && log'[a].row == r;
        assert log[a] == log'[a];
      }
      if Logged(log, r) {
        var a :| 0 <= a < |log| && RowEntry(log[a]) && log[a].row == r;
        assert log'[a] == log[a];
      }
    }
  }

  lemma LogAppend(o: seq<seq<string>>, n: nat, log: seq<LogEntry>, e: LogEntry, finals: seq<string>)
    requires Shaped(o) && n < |o| && |finals| == |o|
    requires LogFaithful(o, n, log, finals)
    requires RowEntry(e) && e.row == n + 2 && Describes(o, e, finals)
    requires ProductId(o, n) == "" || finals[n] != o[n][SkuCol]
    ensures LogFaithful(o, n + 1, log + [e], finals)
  {
    forall i | 0 <= i < n + 1
      ensures Logged(log + [e], i + 2) <==> ProductId(o, i) == "" || finals[i] != o[i][SkuCol]
    {
      LoggedAppend(log, e, i + 2);
    }
  }

  lemma LogKeep(o: seq<seq<string>>, n: nat, log: seq<LogEntry>, finals: seq<string>)
    requires Shaped(o) && n < |o| && |finals| == |o|
    requires LogFaithful(o, n, log, finals)
    requires ProductId(o, n) != "" && finals[n] == o[n][SkuCol]
    ensures LogFaithful(o, n + 1, log, finals)
  {
  }

  /** Entry `n` as `Dedup` sees it, and its final SKU cell. */
  lemma EntryAt(o: seq<seq<string>>, n: nat, s: State)
    requires Shaped(o) && n < |o| && ProductId(o, n) != ""
    requires IsDedup(Entries(o), n, s)
    ensures var raw := o[n][SkuCol];
      Finals(Entries(o), |o|)[n] == FinalSku(s.keys, raw, Trim(raw))
  {
    FinalsSpec(Entries(o), |o|);
  }

  /** The log line of row `n`, which has a product ID, from the decision of the rule. */
  lemma LogDecided(o: seq<seq<string>>, n: nat, s: State, finals: seq<string>)
    requires Shaped(o) && n < |o| && |finals| == |o| && ProductId(o, n) != ""
    requires LogFaithful(o, n, s.log, finals)
    requires var raw := o[n][SkuCol]; finals[n] == FinalSku(s.keys, raw, Trim(raw))
    ensures LogFaithful(o, n + 1, RefStep(s, n, ProductId(o, n), o[n][SkuCol]).log, finals)
  {
    var id := ProductId(o, n);
    var raw := o[n][SkuCol];
    var key := Trim(raw);
    ChangedIffNotKept(s.keys, raw, key);
    match Decide(s.keys, raw, key)
    case Keep =>
      LogKeep(o, n, s.log, finals);
    case Fill(sku) =>
      LogAppend(o, n, s.log, Filled(n + 2, id, sku), finals);
    case Rename(original, sku) =>
      LogAppend(o, n, s.log, Renamed(n + 2, id, original, sku), finals);
  }

  /** The log line of row `n`, which has no product ID. */
  lemma LogOmitted(o: seq<seq<string>>, n: nat, s: State, finals: seq<string>)
    requires Shaped(o) && n < |o| && |finals| == |o| && ProductId(o, n) == ""
    requires LogFaithful(o, n, s.log, finals)
    ensures LogFaithful(o, n + 1, RefStep(s, n, ProductId(o, n), o[n][SkuCol]).log, finals)
  {
    LogAppend(o, n, s.log, Omitted(n + 2), finals);
  }

  lemma LogStep(o: seq<seq<string>>, n: nat, s: State)
    requires Shaped(o) && n < |o|
    requires IsDedup(Entries(o), n, s) && LogFaithful(o, n, s.log, Finals(Entries(o), |o|))
    ensures LogFaithful(o, n + 1, RefStep(s, n, ProductId(o, n), o[n][SkuCol]).log, Finals(Entries(o), |o|))
  {
    if ProductId(o, n) == "" {
      LogOmitted(o, n, s, Finals(Entries(o), |o|));
    } else {
      EntryAt(o, n, s);
      LogDecided(o, n, s, Finals(Entries(o), |o|));
    }
  }


  /** What the reference pass keeps true after `n` rows. */
  ghost predicate RefInv(o: seq<seq<string>>, n: nat, s: State)
    requires Shaped(o) && n <= |o|
  {
    IsDedup(Entries(o), n, s) && MapsLast(o, n, s.idToSku) && LogFaithful(o, n, s.log, Finals(Entries(o), |o|))
  }

  lemma RefInvStep(o: seq<seq<string>>, n: nat, s: State)
    requires Shaped(o) && n < |o|
    requires RefInv(o, n, s)
    ensures RefInv(o, n + 1, RefStep(s, n, ProductId(o, n), o[n][SkuCol]))
  {
    DedupStep(o, n, s);
    MapsLastStep(o, n, s);
    LogStep(o, n, s);
  }

  /**
   * The reference pass, after any number of rows: it counts the trimmed SKUs
   * of the rows with a product ID as the single scope "" of `Dedup`, its SKU
   * column is `Dedup`'s, its product map holds the last SKU of every ID, and
   * its log describes exactly the omitted and changed rows.
   */
  lemma {:induction false} RefSpec(o: seq<seq<string>>, n: nat)
    requires Shaped(o) && n <= |o|
    ensures RefInv(o, n, Ref(o, n))
  {
    if n > 0 {
      RefSpec(o, n - 1);
      RefInvStep(o, n - 1, Ref(o, n - 1));
    }
  }

  /** The SKU column of the reference pass is `Dedup`'s `FinalAt`. */
  lemma RefFinals(o: seq<seq<string>>)
    requires Shaped(o)
    ensures |Ref(o, |o|).skus| == |o|
    ensures forall i :: 0 <= i < |o| ==> Ref(o, |o|).skus[i] == FinalAt(Entries(o), i)
  {
    RefSpec(o, |o|);
    FinalsSpec(Entries(o), |o|);
  }

  /**
   * The product map that `processProductos` returns: its keys are the
   * non-empty product IDs, and each maps to the final SKU, trimmed, of the
   * last row with that ID; no SKU in it is empty.
   */
  lemma ProductMap(o: seq<seq<string>>)
    requires Shaped(o)
    ensures var m := Ref(o, |o|).idToSku;
      (forall id :: id in m ==> id != "" && m[id] != "" && exists i :: 0 <= i < |o| && ProductId(o, i) == id)
      && (forall i :: 0 <= i < |o| && ProductId(o, i) != "" && LastWithId(o, |o|, i) ==>
            ProductId(o, i) in m && m[ProductId(o, i)] == Trim(FinalAt(Entries(o), i)))
  {
    RefSpec(o, |o|);
    FinalsSpec(Entries(o), |o|);
  }

  /**
   * An output row holds the required columns after `ID`, in order: the price
   * as a non-negative number, the SKU as the pass left it, and every other
   * cell as read.
   */
  lemma OutputRowLayout(o: seq<seq<string>>, i: nat, parse: Parser)
    requires Shaped(o) && i < |o|
    ensures var r := OutputRow(o, i, parse);
      |r| == |Required| - 1
      && r[PriceCol - 1].Number? && r[PriceCol - 1].v >= 0.0
      && r[PriceCol - 1] == Number(Coerce(parse, Text(o[i][PriceCol])))
      && r[SkuCol - 1] == Text(FinalAt(Entries(o), i))
      && (ProductId(o, i) == "" ==> r[SkuCol - 1] == Text(o[i][SkuCol]))
      && forall k :: 1 <= k < |Required| && k != PriceCol && k != SkuCol ==> r[k - 1] == Text(o[i][k])
  {
  }

  /**
   * Output row `i` comes from the `i`-th non-blank data row: a copied column
   * holds that row's cell under the column's name, and the price is that
   * row's price coerced; a position past the row's end reads as `''`.
   */
  lemma OutputFromContent(content: seq<seq<string>>, header: seq<string>, parse: Parser, i: nat, k: nat)
    requires i < |NonBlankRows(content)| && 1 <= k < |Required| && k != SkuCol
    ensures var rows := OutputRows(Ordered(content, header), parse);
      var row := NonBlankRows(content)[i]; var idx := IndexOf(header, Required[k]);
      var cell := if 0 <= idx < |row| then row[idx] else "";
      |rows| == |NonBlankRows(content)|
      && rows[i][k - 1] == (if k == PriceCol then Number(Coerce(parse, Text(cell))) else Text(cell))
  {
    var o := Ordered(content, header);
    OutputRowLayout(o, i, parse);
    assert OutputRows(o, parse)[i] == OutputRow(o, i, parse);
  }

  /** Some column index is -1 exactly when some required column is missing. */
  lemma MissingIsAbsent(header: seq<string>)
    ensures Complete(header) <==> forall k :: 0 <= k < |Required| ==> IndicesOf(Required, header)[k] != -1
  {
    if Complete(header) {
      NoneMissing(header);
    } else {
      SomeMissing(header);
    }
  }

  lemma SomeMissing(header: seq<string>)
    requires Missing(header) != []
    ensures exists k :: 0 <= k < |Required| && IndicesOf(Required, header)[k] == -1
  {
    var k := FirstMissing(Required, header);
    assert IndicesOf(Required, header)[k] == -1;
  }

  /** A non-empty missing list names a position of `names` whose name the header lacks. */
  lemma FirstMissing(names: seq<string>, header: seq<string>) returns (k: nat)
    requires MissingOf(names, header) != []
    ensures k < |names| && names[k] !in header
  {
    var x := MissingOf(names, header)[0];
    assert x in names && x !in header;
    k :| 0 <= k < |names| && names[k] == x;
  }

  lemma NoneMissing(header: seq<string>)
    requires Missing(header) == []
    ensures forall k :: 0 <= k < |Required| ==> IndicesOf(Required, header)[k] != -1
  {
    forall k | 0 <= k < |Required|
      ensures IndicesOf(Required, header)[k] != -1
    {
      assert Required[k] !in Missing(header);
    }
  }
}
