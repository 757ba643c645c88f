/**
 * `processOpcionales`: the option sheet reconciler. It copies the SKU the
 * product normaliser gave each product ID into the option rows (logging each
 * ID whose SKU changes once), tags every row with its spreadsheet row number,
 * fills the minimum and maximum quantities from the group quantity, fills
 * empty option SKUs and renames duplicate ones within each product, and
 * projects the rows onto the eleven output columns with the two quantities
 * and the price as non-negative numbers.
 */
module Opcionales {
  import opened Wrappers
  import opened Text
  import opened SkuPrefix
  import opened Sheet
  import opened Dedup

  /** The output columns, in order. */
  const Required: seq<string> :=
    ["SKU Producto", "Grupo de opciones", "SKU Grupo de opciones", "SKU Nombre Grupo de opciones",
     "Cantidad mínima Grupo de opciones", "Cantidad máxima Grupo de opciones", "Nombre Opción",
     "Precio", "SKU", "SKU Nombre", "Modifica precio"]

  /** The output positions turned into numbers: the two quantities and the price. */
  const MinOut: nat := 4
  const MaxOut: nat := 5
  const PriceOut: nat := 7
  /** The output position of the option SKU. */
  const SkuOut: nat := 8
  /** The output position of the product SKU. */
  const ProductSkuOut: nat := 0

  /** Where the columns the reconciler works on sit in the trimmed header; -1 when absent. */
  datatype Columns = Columns(id: int, skuProduct: int, group: int, min: int, max: int, sku: int)

  function ColumnsOf(header: seq<string>): (c: Columns)
    ensures -1 <= c.id < |header| && -1 <= c.skuProduct < |header| && -1 <= c.group < |header|
    ensures -1 <= c.min < |header| && -1 <= c.max < |header| && -1 <= c.sku < |header|
  {
    Columns(IndexOf(header, "ID Producto"), IndexOf(header, "SKU Producto"),
            IndexOf(header, "Cantidad Grupo de opciones"), IndexOf(header, "Cantidad mínima Grupo de opciones"),
            IndexOf(header, "Cantidad máxima Grupo de opciones"), IndexOf(header, "SKU"))
  }

  /** Columns found under different names sit at different positions. */
  predicate Separate(c: Columns) {
    (c.id != -1 ==> c.id != c.skuProduct && c.id != c.group && c.id != c.min && c.id != c.max && c.id != c.sku)
    && (c.skuProduct != -1 ==> c.skuProduct != c.group && c.skuProduct != c.min && c.skuProduct != c.max && c.skuProduct != c.sku)
    && (c.group != -1 ==> c.group != c.min && c.group != c.max && c.group != c.sku)
    && (c.min != -1 ==> c.min != c.max && c.min != c.sku)
    && (c.max != -1 ==> c.max != c.sku)
  }

  lemma ColumnsSeparate(header: seq<string>)
    ensures Separate(ColumnsOf(header))
  {
    var names := ["ID Producto", "SKU Producto", "Cantidad Grupo de opciones",
                  "Cantidad mínima Grupo de opciones", "Cantidad máxima Grupo de opciones", "SKU"];
    forall a, b | 0 <= a < 6 && 0 <= b < 6 && a != b
      ensures IndexOf(header, names[a]) == -1 || IndexOf(header, names[a]) != IndexOf(header, names[b])
    {
      IndexOfDistinct(header, names[a], names[b]);
    }
    assert names[0] == "ID Producto" && names[1] == "SKU Producto" && names[2] == "Cantidad Grupo de opciones";
    assert names[3] == "Cantidad mínima Grupo de opciones" && names[4] == "Cantidad máxima Grupo de opciones";
    assert names[5] == "SKU";
  }

  /** Every row has a cell at position `k`. */
  predicate Fits<T>(rows: seq<seq<T>>, k: nat) {
    forall i :: 0 <= i < |rows| ==> k < |rows[i]|
  }

  // ---- Product SKU sync ----

  /** `idToSkuMap[id]` is truthy: the ID is mapped, and to a non-empty SKU. */
  predicate Mapped(m: map<string, string>, id: string) {
    id in m && m[id] != ""
  }

  /** What the sync reads from a row: its product ID and its product SKU, both trimmed. */
  datatype ProductRef = ProductRef(pid: string, sku: string)

  function ProductRefs(content: seq<seq<string>>, id: nat, sp: nat): (r: seq<ProductRef>)
    requires Fits(content, id) && Fits(content, sp)
    ensures |r| == |content|
    ensures forall i :: 0 <= i < |content| ==> r[i] == ProductRef(Trim(content[i][id]), Trim(content[i][sp]))
  {
    seq(|content|, i requires 0 <= i < |content| => ProductRef(Trim(content[i][id]), Trim(content[i][sp])))
  }

  /** The row's product SKU differs from the SKU the product map holds for its ID. */
  predicate Stale(r: ProductRef, m: map<string, string>) {
    Mapped(m, r.pid) && r.sku != m[r.pid]
  }

  /** Some of the first `n` rows with product ID `pid` is stale. */
  ghost predicate StaleBefore(rs: seq<ProductRef>, n: nat, m: map<string, string>, pid: string)
    requires n <= |rs|
  {
    exists j :: 0 <= j < n && Stale(rs[j], m) && rs[j].pid == pid
  }

  /** The sync lines for the first `n` rows: one per ID, at the first stale row with that ID. */
  ghost function SyncLines(rs: seq<ProductRef>, n: nat, m: map<string, string>): seq<LogEntry>
    requires n <= |rs|
  {
    if n == 0 then []
    else
      var r := rs[n - 1];
      SyncLines(rs, n - 1, m)
      + (if Stale(r, m) && !StaleBefore(rs, n - 1, m, r.pid) then [Synced(r.pid, m[r.pid])] else [])
  }

  /** The first loop of the sync: log each mapped ID once, at its first row whose product SKU differs. */
  method SyncLog(content: seq<seq<string>>, id: nat, sp: nat, m: map<string, string>) returns (log: seq<LogEntry>)
    requires Fits(content, id) && Fits(content, sp)
    ensures log == SyncLines(ProductRefs(content, id, sp), |content|, m)
  {
    ghost var rs := ProductRefs(content, id, sp);
    var logged: set<string> := {};
    log := [];
    var i := 0;
    while i < |content|
      invariant 0 <= i <= |content|
      invariant LogAgrees(rs, i, m, log, logged)
    {
      var pid := Trim(content[i][id]);
      var skip := true;
      if pid in m && m[pid] != "" && pid !in logged {
        var newSku := m[pid];
        if Trim(content[i][sp]) != newSku {
          SyncLogAdd(rs, i, m, log, logged);
          log := log + [Synced(pid, newSku)];
          logged := logged + {pid};
          skip := false;
        }
      }
      if skip {
        SyncLogSkip(rs, i, m, log, logged);
      }
      i := i + 1;
    }
  }

  /** The log and the set of logged IDs after the first `n` rows. */
  ghost predicate LogAgrees(rs: seq<ProductRef>, n: nat, m: map<string, string>, log: seq<LogEntry>, logged: set<string>)
    requires n <= |rs|
  {
    log == SyncLines(rs, n, m) && forall pid :: pid in logged <==> StaleBefore(rs, n, m, pid)
  }

  lemma SyncLogAdd(rs: seq<ProductRef>, n: nat, m: map<string, string>, log: seq<LogEntry>, logged: set<string>)
    requires n < |rs| && LogAgrees(rs, n, m, log, logged)
    requires Stale(rs[n], m) && rs[n].pid !in logged
    ensures LogAgrees(rs, n + 1, m, log + [Synced(rs[n].pid, m[rs[n].pid])], logged + {rs[n].pid})
  {
    StaleBeforeStep(rs, n, m);
  }

  lemma SyncLogSkip(rs: seq<ProductRef>, n: nat, m: map<string, string>, log: seq<LogEntry>, logged: set<string>)
    requires n < |rs| && LogAgrees(rs, n, m, log, logged)
    requires !(Stale(rs[n], m) && rs[n].pid !in logged)
    ensures LogAgrees(rs, n + 1, m, log, logged)
  {
    StaleBeforeStep(rs, n, m);
  }

  lemma StaleBeforeStep(rs: seq<ProductRef>, n: nat, m: map<string, string>)
    requires n < |rs|
    ensures forall pid :: (StaleBefore(rs, n + 1, m, pid)
      <==> StaleBefore(rs, n, m, pid) || (Stale(rs[n], m) && rs[n].pid == pid))
  {
    forall pid | StaleBefore(rs, n + 1, m, pid)
      ensures StaleBefore(rs, n, m, pid) || (Stale(rs[n], m) && rs[n].pid == pid)
    {
      var j :| 0 <= j < n + 1 && Stale(rs[j], m) && rs[j].pid == pid;
      if j < n {
        assert StaleBefore(rs, n, m, pid);
      }
    }
  }

  /** Every sync line is `Synced(pid, m[pid])` for a mapped ID `pid`. */
  lemma {:induction false} SyncLinesMapped(rs: seq<ProductRef>, n: nat, m: map<string, string>)
    requires n <= |rs|
    ensures forall e :: e in SyncLines(rs, n, m) ==> e.Synced? && Mapped(m, e.id) && e.sku == m[e.id]
  {
    if n > 0 {
      SyncLinesMapped(rs, n - 1, m);
    }
  }

  /** A mapped ID has a sync line exactly when some row with it is stale. */
  lemma {:induction false} SyncLinesComplete(rs: seq<ProductRef>, n: nat, m: map<string, string>)
    requires n <= |rs|
    ensures forall pid :: Mapped(m, pid) ==> (Synced(pid, m[pid]) in SyncLines(rs, n, m) <==> StaleBefore(rs, n, m, pid))
  {
    if n > 0 {
      SyncLinesComplete(rs, n - 1, m);
      StaleBeforeStep(rs, n - 1, m);
    }
  }

  predicate NoRepeats<T(==)>(s: seq<T>) {
    forall a, b :: 0 <= a < b < |s| ==> s[a] != s[b]
  }

  /** No ID is logged twice. */
  lemma {:induction false} SyncLinesDistinct(rs: seq<ProductRef>, n: nat, m: map<string, string>)
    requires n <= |rs|
    ensures NoRepeats(SyncLines(rs, n, m))
  {
    if n > 0 {
      SyncLinesDistinct(rs, n - 1, m);
      SyncLinesComplete(rs, n - 1, m);
      var r := rs[n - 1];
      var prev := SyncLines(rs, n - 1, m);
      if Stale(r, m) && !StaleBefore(rs, n - 1, m, r.pid) {
        var x := Synced(r.pid, m[r.pid]);
        var log := prev + [x];
        assert SyncLines(rs, n, m) == log;
        assert x !in prev;
        forall a, b | 0 <= a < b < |log|
          ensures log[a] != log[b]
        {
          if b == |prev| {
            assert log[a] == prev[a] && prev[a] in prev;
            assert log[b] == x;
          } else {
            assert log[a] == prev[a] && log[b] == prev[b];
          }
        }
      }
    }
  }

  /** The second loop of the sync on one row: a mapped ID gets the map's SKU as its product SKU. */
  function SyncedRow(row: seq<string>, id: nat, sp: nat, m: map<string, string>): seq<string>
    requires id < |row| && sp < |row|
  {
    var pid := Trim(row[id]);
    if Mapped(m, pid) then row[sp := m[pid]] else row
  }

  /** The second loop of the sync, in place over the data rows. */
  method SyncRows(a: array<seq<string>>, id: nat, sp: nat, m: map<string, string>)
    requires forall i :: 0 <= i < a.Length ==> id < |a[i]| && sp < |a[i]|
    modifies a
    ensures forall i :: 0 <= i < a.Length ==> a[i] == SyncedRow(old(a[i]), id, sp, m)
  {
    var i := 0;
    while i < a.Length
      invariant 0 <= i <= a.Length
      invariant forall j :: 0 <= j < i ==> a[j] == SyncedRow(old(a[j]), id, sp, m)
      invariant forall j :: i <= j < a.Length ==> a[j] == old(a[j])
    {
      var pid := Trim(a[i][id]);
      if pid in m && m[pid] != "" {
        a[i] := a[i][sp := m[pid]];
      }
      i := i + 1;
    }
  }

  /** Every data row after the second loop of the sync. */
  function SyncedRows(content: seq<seq<string>>, id: nat, sp: nat, m: map<string, string>): (r: seq<seq<string>>)
    requires Fits(content, id) && Fits(content, sp)
    ensures |r| == |content| && forall i :: 0 <= i < |r| ==> r[i] == SyncedRow(content[i], id, sp, m)
  {
    seq(|content|, i requires 0 <= i < |content| => SyncedRow(content[i], id, sp, m))
  }

  /** The data rows after the sync, which runs only when both the ID and the product SKU columns exist. */
  function SyncedContent(content: seq<seq<string>>, c: Columns, m: map<string, string>): (r: seq<seq<string>>)
    requires -1 <= c.id && -1 <= c.skuProduct
    requires forall i :: 0 <= i < |content| ==> c.id < |content[i]| && c.skuProduct < |content[i]|
    ensures |r| == |content| && forall i :: 0 <= i < |r| ==> |r[i]| == |content[i]|
  {
    if c.id == -1 || c.skuProduct == -1 then content
    else SyncedRows(content, c.id as nat, c.skuProduct as nat, m)
  }

  /**
   * Synced rows are settled: when the map's SKUs are trimmed, as the product
   * normaliser's are, syncing them again logs nothing and changes nothing.
   */
  lemma SyncSettles(content: seq<seq<string>>, id: nat, sp: nat, m: map<string, string>)
    requires Fits(content, id) && Fits(content, sp) && id != sp
    requires forall k :: k in m ==> Trim(m[k]) == m[k]
    ensures var synced := SyncedRows(content, id, sp, m);
      SyncLines(ProductRefs(synced, id, sp), |synced|, m) == [] && SyncedRows(synced, id, sp, m) == synced
  {
    var synced := SyncedRows(content, id, sp, m);
    var rs := ProductRefs(synced, id, sp);
    forall i | 0 <= i < |synced|
      ensures !Stale(rs[i], m) && SyncedRow(synced[i], id, sp, m) == synced[i]
    {
      assert synced[i][id] == content[i][id];
    }
    NoStaleNoLines(rs, |rs|, m);
  }

  lemma {:induction false} NoStaleNoLines(rs: seq<ProductRef>, n: nat, m: map<string, string>)
    requires n <= |rs|
    requires forall i :: 0 <= i < n ==> !Stale(rs[i], m)
    ensures SyncLines(rs, n, m) == []
  {
    if n > 0 {
      NoStaleNoLines(rs, n - 1, m);
    }
  }

  // ---- Row numbers ----

  /** `content.map((row, index) => [...row, index + 2])`: each row gains its spreadsheet row number. */
  function Numbered(content: seq<seq<string>>): (r: seq<seq<Cell>>)
    ensures |r| == |content|
    ensures forall i :: 0 <= i < |content| ==> r[i] == TextRow(content[i]) + [Number((i + 2) as real)]
  {
    seq(|content|, i requires 0 <= i < |content| => TextRow(content[i]) + [Number((i + 2) as real)])
  }

  /** The blank-row filter over working rows: the rows with some non-blank cell, in order. */
  function KeepNonBlank(rows: seq<seq<Cell>>): (r: seq<seq<Cell>>)
    ensures |r| <= |rows|
    ensures forall x :: x in r <==> x in rows && NonBlank(x)
    ensures Picked(rows, r, Kept(rows, NonBlank), NonBlank)
  {
    FilterInOrder(rows, NonBlank);
    Filter(rows, NonBlank)
  }

  /** The row number is never blank, so the filter drops no row, blank or not. */
  lemma NothingDropped(content: seq<seq<string>>)
    ensures KeepNonBlank(Numbered(content)) == Numbered(content)
  {
    var rows := Numbered(content);
    forall i | 0 <= i < |rows|
      ensures NonBlank(rows[i])
    {
      assert HasValue(rows[i][|content[i]|]);
    }
    FilterAll(rows, NonBlank);
  }

  // ---- Quantities ----

  /** `hasValue(row[k])`; position -1 holds nothing. */
  predicate HasAt(row: seq<Cell>, k: int) {
    0 <= k < |row| && HasValue(row[k])
  }

  /**
   * The quantity fill on one row: a row with neither a minimum nor a maximum
   * takes the group quantity for both, and a row with a maximum but no
   * minimum gets a minimum of 0. Nothing happens when the header lacks the
   * minimum or the maximum column.
   */
  function FilledRow(row: seq<Cell>, c: Columns): (r: seq<Cell>)
    requires -1 <= c.min < |row| && -1 <= c.max < |row|
    ensures |r| == |row|
  {
    if c.min == -1 || c.max == -1 then row
    else
      var group := HasAt(row, c.group);
      var min := HasValue(row[c.min]);
      var max := HasValue(row[c.max]);
      if group && !min && !max then row[c.min := row[c.group]][c.max := row[c.group]]
      else if !group && max then (if !min then row[c.min := Number(0.0)] else row)
      else if group && max then (if !min then row[c.min := Number(0.0)] else row)
      else row
  }

  /** Both quantity columns, where present, lie within every row. */
  predicate FillFits(rows: seq<seq<Cell>>, c: Columns) {
    forall i :: 0 <= i < |rows| ==> -1 <= c.min < |rows[i]| && -1 <= c.max < |rows[i]|
  }

  /** The quantity fill, in place over the working rows. */
  method FillQuantities(a: array<seq<Cell>>, c: Columns)
    requires FillFits(a[..], c)
    modifies a
    ensures forall i :: 0 <= i < a.Length ==> a[i] == FilledRow(old(a[i]), c)
  {
    var i := 0;
    while i < a.Length
      invariant 0 <= i <= a.Length && FillFits(old(a[..]), c)
      invariant forall j :: 0 <= j < i ==> a[j] == FilledRow(old(a[j]), c)
      invariant forall j :: i <= j < a.Length ==> a[j] == old(a[j])
    {
      a[i] := FilledRow(a[i], c);
      i := i + 1;
    }
  }

  /** The fill touches no cell but the minimum and the maximum. */
  lemma FilledRowKeeps(row: seq<Cell>, c: Columns, k: nat)
    requires -1 <= c.min < |row| && -1 <= c.max < |row| && k < |row|
    requires k != c.min && k != c.max
    ensures FilledRow(row, c)[k] == row[k]
  {
  }

  /**
   * The quantity rule, cell by cell, when the three quantity columns are
   * distinct and the minimum and maximum exist: a minimum with a value keeps
   * the row as it is; otherwise a maximum with a value brings a minimum of 0,
   * and failing that a group quantity with a value becomes both. So the
   * minimum ends with a value exactly when one of the three had one.
   */
  lemma QuantityRule(row: seq<Cell>, c: Columns)
    requires 0 <= c.min < |row| && 0 <= c.max < |row| && c.min != c.max
    requires c.group != c.min && c.group != c.max
    ensures var r := FilledRow(row, c);
      (forall k :: 0 <= k < |row| && k != c.min && k != c.max ==> r[k] == row[k])
      && (HasValue(row[c.min]) ==> r == row)
      && (!HasValue(row[c.min]) && HasValue(row[c.max]) ==> r == row[c.min := Number(0.0)])
      && (!HasValue(row[c.min]) && !HasValue(row[c.max]) && HasAt(row, c.group) ==>
            r[c.min] == row[c.group] && r[c.max] == row[c.group])
      && (!HasValue(row[c.min]) && !HasValue(row[c.max]) && !HasAt(row, c.group) ==> r == row)
      && (HasValue(r[c.min]) <==> HasValue(row[c.min]) || HasValue(row[c.max]) || HasAt(row, c.group))
      && (HasValue(r[c.max]) <==> HasValue(row[c.max]) || (!HasValue(row[c.min]) && HasAt(row, c.group)))
  {
  }

  // ---- Option SKUs, product by product ----

  /** Every row has a text cell at position `k`. */
  predicate TextAt(rows: seq<seq<Cell>>, k: nat) {
    forall i :: 0 <= i < |rows| ==> k < |rows[i]| && rows[i][k].Text?
  }

  /** The rows as the option SKU pass sees them: each row in the scope of its trimmed product ID. */
  function GroupEntries(rows: seq<seq<Cell>>, id: nat, sku: nat): (es: seq<Entry>)
    requires TextAt(rows, id) && TextAt(rows, sku)
    ensures |es| == |rows|
    ensures forall i :: 0 <= i < |rows| ==> es[i] == MakeEntry(Some(Trim(rows[i][id].s)), rows[i][sku].s)
  {
    seq(|rows|, i requires 0 <= i < |rows| => MakeEntry(Some(Trim(rows[i][id].s)), rows[i][sku].s))
  }

  /** The log lines for the row with spreadsheet row number `row`. */
  function OptionLines(row: nat, o: Outcome): seq<LogEntry> {
    match o
    case Keep => []
    case Fill(sku) => [OptionFilled(row, sku)]
    case Rename(original, sku) => [OptionRenamed(row, original, sku)]
  }

  /** The log lines of group `g` for the first `n` rows, in row order; row `i` is spreadsheet row `i + 2`. */
  function GroupLines(es: seq<Entry>, n: nat, g: string): seq<LogEntry>
    requires n <= |es|
  {
    if n == 0 then []
    else
      GroupLines(es, n - 1, g)
      + (if es[n - 1].scope == Some(g) then OptionLines(n + 1, Decide(ScopeKeys(es, n - 1, g), es[n - 1].sku, es[n - 1].key)) else [])
  }

  /** Log line `e` reports a change to a row of group `g`, with the SKU that row ends with. */
  ghost predicate ReportsRow(es: seq<Entry>, g: string, e: LogEntry) {
    (e.OptionFilled? || e.OptionRenamed?) && 2 <= e.row < |es| + 2
    && es[e.row - 2].scope == Some(g) && e.sku == FinalAt(es, e.row - 2)
  }

  /** Every line of `lines` reports a row of group `g`. */
  ghost predicate AllReport(es: seq<Entry>, g: string, lines: seq<LogEntry>) {
    forall e :: e in lines ==> ReportsRow(es, g, e)
  }

  lemma AllReportConcat(es: seq<Entry>, g: string, x: seq<LogEntry>, y: seq<LogEntry>)
    requires AllReport(es, g, x) && AllReport(es, g, y)
    ensures AllReport(es, g, x + y)
  {
    assert forall e :: e in x + y ==> e in x || e in y;
  }

  /** Every line of a group names one of its rows and the SKU the pass wrote there. */
  lemma {:induction false} GroupLinesReport(es: seq<Entry>, n: nat, g: string)
    requires n <= |es|
    ensures AllReport(es, g, GroupLines(es, n, g))
  {
    if n > 0 {
      GroupLinesReport(es, n - 1, g);
      var x := GroupLines(es, n - 1, g);
      var last := if es[n - 1].scope == Some(g)
        then OptionLines(n + 1, Decide(ScopeKeys(es, n - 1, g), es[n - 1].sku, es[n - 1].key)) else [];
      assert GroupLines(es, n, g) == x + last;
      if es[n - 1].scope == Some(g) {
        LastLineReports(es, n, g);
      }
      AllReportConcat(es, g, x, last);
    }
  }

  /** The line of the last row read reports that row. */
  lemma LastLineReports(es: seq<Entry>, n: nat, g: string)
    requires 0 < n <= |es| && es[n - 1].scope == Some(g)
    ensures AllReport(es, g, OptionLines(n + 1, Decide(ScopeKeys(es, n - 1, g), es[n - 1].sku, es[n - 1].key)))
  {
    var prev := ScopeKeys(es, n - 1, g);
    assert FinalAt(es, n - 1) == FinalSku(prev, es[n - 1].sku, es[n - 1].key);
    OptionLinesSku(n + 1, prev, es[n - 1].sku, es[n - 1].key);
  }

  /** The line of a decision names its row and the SKU the cell ends with. */
  lemma OptionLinesSku(row: nat, prev: seq<string>, raw: string, key: string)
    ensures forall e :: e in OptionLines(row, Decide(prev, raw, key)) ==>
      (e.OptionFilled? || e.OptionRenamed?) && e.row == row && e.sku == FinalSku(prev, raw, key)
  {
    match Decide(prev, raw, key)
    case Keep =>
    case Fill(s) =>
    case Rename(original, s) =>
  }

  /** Every row of a group whose SKU the pass fills or renames has its line. */
  lemma GroupLinesCover(es: seq<Entry>, n: nat, g: string, i: nat, e: LogEntry)
    requires i < n <= |es| && es[i].scope == Some(g)
    requires e in OptionLines(i + 2, Decide(ScopeKeys(es, i, g), es[i].sku, es[i].key))
    ensures e in GroupLines(es, n, g)
  {
    var x := GroupLines(es, i, g);
    var own := OptionLines(i + 2, Decide(ScopeKeys(es, i, g), es[i].sku, es[i].key));
    var y := GroupLines(es, i + 1, g);
    assert y == x + own;
    GroupLinesPrefix(es, i + 1, n, g);
    InPrefix(x, own, y, GroupLines(es, n, g), e);
  }

  lemma InPrefix<T>(x: seq<T>, own: seq<T>, y: seq<T>, z: seq<T>, e: T)
    requires y == x + own && y <= z && e in own
    ensures e in z
  {
    var k :| 0 <= k < |own| && own[k] == e;
    assert z[|x| + k] == e;
  }

  /** The lines of the first rows are where they were as more rows are read. */
  lemma {:induction false} GroupLinesPrefix(es: seq<Entry>, a: nat, b: nat, g: string)
    requires a <= b <= |es|
    ensures GroupLines(es, a, g) <= GroupLines(es, b, g)
  {
    if a < b {
      GroupLinesPrefix(es, a, b - 1, g);
      PrefixGrows(GroupLines(es, a, g), GroupLines(es, b - 1, g), GroupLines(es, b, g));
    }
  }

  lemma PrefixGrows<T>(x: seq<T>, y: seq<T>, z: seq<T>)
    requires x <= y && y <= z
    ensures x <= z
  {
  }

  lemma SeqGrows<T>(x: seq<T>, y: seq<T>)
    ensures forall e :: e in x ==> e in x + y
    ensures forall e :: e in y ==> e in x + y
  {
  }

  /** The option SKU rule on one row, with the counters of its group. */
  method OptionStep(raw: string, row: nat, counts: map<string, nat>, emptyCount: nat, ghost keys: seq<string>)
    returns (sku: string, lines: seq<LogEntry>, counts': map<string, nat>, emptyCount': nat)
    requires Counters(keys, counts, emptyCount)
    ensures Counters(keys + [Trim(raw)], counts', emptyCount')
    ensures sku == FinalSku(keys, raw, Trim(raw)) && lines == OptionLines(row, Decide(keys, raw, Trim(raw)))
  {
    var key := Trim(raw);
    if key == "" {
      CountersOnEmpty(keys, counts, emptyCount, raw);
      sku := GetNextPrefix(emptyCount);
      assert Decide(keys, raw, key) == Fill(sku);
      lines := [OptionFilled(row, sku)];
      counts', emptyCount' := counts, emptyCount + 1;
    } else if key in counts && counts[key] > 0 {
      CountersOnRepeat(keys, counts, emptyCount, raw);
      sku := GetNextPrefix(counts[key] - 1) + key;
      assert Decide(keys, raw, key) == Rename(key, sku);
      lines := [OptionRenamed(row, key, sku)];
      counts', emptyCount' := counts[key := counts[key] + 1], emptyCount;
    } else {
      CountersOnFirst(keys, counts, emptyCount, raw);
      sku := raw;
      lines := [];
      counts', emptyCount' := counts[key := 1], emptyCount;
    }
  }

  /** The row before which the pass over the positions `ps` of a group stands after `t` of them. */
  function Bound(ps: seq<nat>, t: nat, n: nat): nat
    requires t <= |ps|
  {
    if t < |ps| then ps[t] else n
  }

  /**
   * After `t` rows of group `g`: the rows of `g` before the bound hold their
   * final SKU, every other row is as it was, and the counters and lines are
   * those of the rows of `g` before the bound.
   */
  ghost predicate GroupDone(es: seq<Entry>, g: string, ps: seq<nat>, t: nat, rows0: seq<seq<Cell>>, rows: seq<seq<Cell>>,
                            sku: nat, counts: map<string, nat>, emptyCount: nat, lines: seq<LogEntry>)
    requires t <= |ps|
  {
    var b := Bound(ps, t, |es|);
    RowsDone(es, g, rows0, rows, sku, b)
    && Counters(ScopeKeys(es, b, g), counts, emptyCount)
    && lines == GroupLines(es, b, g)
  }

  /** The rows of group `g` before `b` hold their final SKU; every other row is as it was. */
  ghost predicate RowsDone(es: seq<Entry>, g: string, rows0: seq<seq<Cell>>, rows: seq<seq<Cell>>, sku: nat, b: nat)
  {
    b <= |es| && |rows0| == |es| && |rows| == |rows0| && Fits(rows0, sku)
    && forall i :: 0 <= i < |rows| ==>
         rows[i] == (if es[i].scope == Some(g) && i < b then rows0[i][sku := Text(FinalAt(es, i))] else rows0[i])
  }

  /** Entries outside the group add no lines. */
  lemma {:induction false} GroupLinesSkip(es: seq<Entry>, a: nat, b: nat, g: string)
    requires a <= b <= |es|
    requires forall j :: a <= j < b ==> es[j].scope != Some(g)
    ensures GroupLines(es, b, g) == GroupLines(es, a, g)
  {
    if b > a {
      GroupLinesSkip(es, a, b - 1, g);
    }
  }

  lemma PositionsBound(es: seq<Entry>, g: string, t: nat)
    requires t <= |Positions(es, |es|, g)|
    ensures Bound(Positions(es, |es|, g), t, |es|) <= |es|
    ensures t < |Positions(es, |es|, g)| ==> Positions(es, |es|, g)[t] < |es| && es[Positions(es, |es|, g)[t]].scope == Some(g)
  {
    PositionsSpec(es, |es|, g);
  }

  /** Before the first row of the group nothing has happened. */
  lemma GroupStart(es: seq<Entry>, g: string, rows0: seq<seq<Cell>>, sku: nat)
    requires |rows0| == |es| && Fits(rows0, sku)
    ensures GroupDone(es, g, Positions(es, |es|, g), 0, rows0, rows0, sku, map[], 0, [])
  {
    var ps := Positions(es, |es|, g);
    PositionsBound(es, g, 0);
    var b := Bound(ps, 0, |es|);
    forall j | 0 <= j < b
      ensures es[j].scope != Some(g)
    {
      PositionsGap(es, g, 0, j);
    }
    ScopeKeysSkip(es, 0, b, g);
    GroupLinesSkip(es, 0, b, g);
  }

  /** The step from the `t`-th row of the group to the next: its key and lines are added, and the rows skipped belong to other groups. */
  lemma AdvanceKeys(es: seq<Entry>, g: string, t: nat)
    requires t < |Positions(es, |es|, g)|
    ensures var ps := Positions(es, |es|, g); var p := ps[t]; var b := Bound(ps, t + 1, |es|);
      p < b <= |es| && es[p].scope == Some(g)
      && ScopeKeys(es, b, g) == ScopeKeys(es, p, g) + [es[p].key]
      && GroupLines(es, b, g) == GroupLines(es, p, g) + OptionLines(p + 2, Decide(ScopeKeys(es, p, g), es[p].sku, es[p].key))
      && forall j :: p < j < b ==> es[j].scope != Some(g)
  {
    var ps := Positions(es, |es|, g);
    PositionsNext(es, g, t);
    var p := ps[t];
    var b := Bound(ps, t + 1, |es|);
    forall j | p + 1 <= j < b
      ensures es[j].scope != Some(g)
    {
      PositionsGap(es, g, t + 1, j);
    }
    GroupRowStep(es, p, g);
    ScopeKeysSkip(es, p + 1, b, g);
    GroupLinesSkip(es, p + 1, b, g);
  }

  /** The `t`-th row of a group lies before the next one (or the end) and belongs to the group. */
  lemma PositionsNext(es: seq<Entry>, g: string, t: nat)
    requires t < |Positions(es, |es|, g)|
    ensures var ps := Positions(es, |es|, g);
      ps[t] < Bound(ps, t + 1, |es|) <= |es| && es[ps[t]].scope == Some(g)
  {
    PositionsSpec(es, |es|, g);
  }

  /** A row of the group adds its key to the group's keys and its lines to the group's lines. */
  lemma GroupRowStep(es: seq<Entry>, p: nat, g: string)
    requires p < |es| && es[p].scope == Some(g)
    ensures ScopeKeys(es, p + 1, g) == ScopeKeys(es, p, g) + [es[p].key]
    ensures GroupLines(es, p + 1, g) == GroupLines(es, p, g) + OptionLines(p + 2, Decide(ScopeKeys(es, p, g), es[p].sku, es[p].key))
  {
  }

  lemma AdvanceRows(es: seq<Entry>, g: string, rows0: seq<seq<Cell>>, rows: seq<seq<Cell>>, sku: nat, b: nat, b': nat)
    requires RowsDone(es, g, rows0, rows, sku, b) && b < b' <= |es|
    requires es[b].scope == Some(g)
    requires forall j :: b < j < b' ==> es[j].scope != Some(g)
    ensures RowsDone(es, g, rows0, rows[b := rows[b][sku := Text(FinalAt(es, b))]], sku, b')
  {
  }

  /** One row of the group through the rule, with its counters, cell and lines. */
  method GroupStep(rows: seq<seq<Cell>>, ps: seq<nat>, t: nat, sku: nat, counts: map<string, nat>, emptyCount: nat,
                   lines: seq<LogEntry>, ghost es: seq<Entry>, ghost g: string, ghost rows0: seq<seq<Cell>>)
    returns (rows': seq<seq<Cell>>, counts': map<string, nat>, emptyCount': nat, lines': seq<LogEntry>)
    requires ps == Positions(es, |es|, g) && t < |ps| && Keyed(es)
    requires GroupSkus(es, g, rows0, sku)
    requires GroupDone(es, g, ps, t, rows0, rows, sku, counts, emptyCount, lines)
    ensures GroupDone(es, g, ps, t + 1, rows0, rows', sku, counts', emptyCount', lines')
  {
    var p := ps[t];
    GroupRowAt(es, g, ps, t, rows0, rows, sku, counts, emptyCount, lines);
    ghost var raw := es[p].sku;
    ghost var keys := ScopeKeys(es, p, g);
    ghost var newSku, newLines;
    rows', newSku, newLines, counts', emptyCount', lines' := GroupCell(rows, p, sku, counts, emptyCount, lines, keys);
    GroupAdvance(es, g, ps, t, rows0, rows, sku, counts, emptyCount, lines, p, keys, raw, newSku, newLines, counts', emptyCount');
  }

  /** The rule applied to the SKU cell of row `p`, its lines appended to the log so far. */
  method GroupCell(rows: seq<seq<Cell>>, p: nat, sku: nat, counts: map<string, nat>, emptyCount: nat,
                   lines: seq<LogEntry>, ghost keys: seq<string>)
    returns (rows': seq<seq<Cell>>, newSku: string, newLines: seq<LogEntry>, counts': map<string, nat>,
             emptyCount': nat, lines': seq<LogEntry>)
    requires p < |rows| && sku < |rows[p]| && rows[p][sku].Text? && Counters(keys, counts, emptyCount)
    ensures var raw := rows[p][sku].s;
      Counters(keys + [Trim(raw)], counts', emptyCount')
      && newSku == FinalSku(keys, raw, Trim(raw)) && newLines == OptionLines(p + 2, Decide(keys, raw, Trim(raw)))
      && rows' == rows[p := rows[p][sku := Text(newSku)]] && lines' == lines + newLines
  {
    newSku, newLines, counts', emptyCount' := OptionStep(rows[p][sku].s, p + 2, counts, emptyCount, keys);
    rows' := rows[p := rows[p][sku := Text(newSku)]];
    lines' := lines + newLines;
  }

  /** Every row of group `g` still holds its uploaded SKU. */
  ghost predicate GroupSkus(es: seq<Entry>, g: string, rows: seq<seq<Cell>>, sku: nat)
  {
    |rows| == |es| && Fits(rows, sku)
    && forall i :: 0 <= i < |rows| && es[i].scope == Some(g) ==> rows[i][sku] == Text(es[i].sku)
  }

  /** The `t`-th row of the group is still as it was. */
  lemma GroupRowAt(es: seq<Entry>, g: string, ps: seq<nat>, t: nat, rows0: seq<seq<Cell>>, rows: seq<seq<Cell>>,
                   sku: nat, counts: map<string, nat>, emptyCount: nat, lines: seq<LogEntry>)
    requires ps == Positions(es, |es|, g) && t < |ps| && Keyed(es)
    requires GroupSkus(es, g, rows0, sku)
    requires GroupDone(es, g, ps, t, rows0, rows, sku, counts, emptyCount, lines)
    ensures ps[t] < |rows| && sku < |rows[ps[t]]| && rows[ps[t]][sku] == Text(es[ps[t]].sku)
    ensures es[ps[t]].key == Trim(es[ps[t]].sku)
    ensures Counters(ScopeKeys(es, ps[t], g), counts, emptyCount)
  {
    PositionsBound(es, g, t);
    assert rows[ps[t]] == rows0[ps[t]];
  }

  lemma GroupAdvance(es: seq<Entry>, g: string, ps: seq<nat>, t: nat, rows0: seq<seq<Cell>>, rows: seq<seq<Cell>>,
                     sku: nat, counts: map<string, nat>, emptyCount: nat, lines: seq<LogEntry>,
                     p: nat, keys: seq<string>, raw: string,
                     newSku: string, newLines: seq<LogEntry>, counts': map<string, nat>, emptyCount': nat)
    requires ps == Positions(es, |es|, g) && t < |ps| && p == ps[t] && p < |es|
    requires keys == ScopeKeys(es, p, g) && raw == es[p].sku && es[p].key == Trim(raw)
    requires GroupDone(es, g, ps, t, rows0, rows, sku, counts, emptyCount, lines)
    requires Counters(keys + [Trim(raw)], counts', emptyCount')
    requires newSku == FinalSku(keys, raw, Trim(raw)) && newLines == OptionLines(p + 2, Decide(keys, raw, Trim(raw)))
    ensures GroupDone(es, g, ps, t + 1, rows0, rows[p := rows[p][sku := Text(newSku)]], sku, counts', emptyCount', lines + newLines)
  {
    var b := Bound(ps, t + 1, |es|);
    assert Bound(ps, t, |es|) == p;
    AdvanceState(es, g, ps, t, p, keys, raw, lines, newSku, newLines);
    AdvanceRows(es, g, rows0, rows, sku, p, b);
    GroupDoneIntro(es, g, ps, t + 1, rows0, rows[p := rows[p][sku := Text(newSku)]], sku, counts', emptyCount', lines + newLines);
  }

  /** The counters' keys, the lines and the final SKU after the `t`-th row of the group. */
  lemma AdvanceState(es: seq<Entry>, g: string, ps: seq<nat>, t: nat, p: nat, keys: seq<string>, raw: string,
                     lines: seq<LogEntry>, newSku: string, newLines: seq<LogEntry>)
    requires ps == Positions(es, |es|, g) && t < |ps| && p == ps[t] && p < |es|
    requires keys == ScopeKeys(es, p, g) && raw == es[p].sku && es[p].key == Trim(raw)
    requires lines == GroupLines(es, p, g)
    requires newSku == FinalSku(keys, raw, Trim(raw)) && newLines == OptionLines(p + 2, Decide(keys, raw, Trim(raw)))
    ensures var b := Bound(ps, t + 1, |es|);
      p < b <= |es| && es[p].scope == Some(g) && (forall j :: p < j < b ==> es[j].scope != Some(g))
      && ScopeKeys(es, b, g) == keys + [Trim(raw)] && GroupLines(es, b, g) == lines + newLines
      && FinalAt(es, p) == newSku
  {
    AdvanceKeys(es, g, t);
  }

  lemma GroupDoneIntro(es: seq<Entry>, g: string, ps: seq<nat>, t: nat, rows0: seq<seq<Cell>>, rows: seq<seq<Cell>>,
                       sku: nat, counts: map<string, nat>, emptyCount: nat, lines: seq<LogEntry>)
    requires t <= |ps| && RowsDone(es, g, rows0, rows, sku, Bound(ps, t, |es|))
    requires Counters(ScopeKeys(es, Bound(ps, t, |es|), g), counts, emptyCount)
    requires lines == GroupLines(es, Bound(ps, t, |es|), g)
    ensures GroupDone(es, g, ps, t, rows0, rows, sku, counts, emptyCount, lines)
  {
  }

  /** `productRows.forEach(...)` for one group: its rows in order, with counters of their own. */
  method DedupGroup(rows: seq<seq<Cell>>, ps: seq<nat>, sku: nat, ghost es: seq<Entry>, ghost g: string)
    returns (rows': seq<seq<Cell>>, lines: seq<LogEntry>)
    requires ps == Positions(es, |es|, g) && Keyed(es) && GroupSkus(es, g, rows, sku)
    ensures |rows'| == |rows|
    ensures forall i :: 0 <= i < |rows| ==>
      rows'[i] == (if es[i].scope == Some(g) then rows[i][sku := Text(FinalAt(es, i))] else rows[i])
    ensures lines == GroupLines(es, |es|, g)
  {
    var counts: map<string, nat> := map[];
    var emptyCount: nat := 0;
    rows' := rows;
    lines := [];
    GroupStart(es, g, rows, sku);
    var t := 0;
    while t < |ps|
      invariant 0 <= t <= |ps|
      invariant GroupDone(es, g, ps, t, rows, rows', sku, counts, emptyCount, lines)
    {
      rows', counts, emptyCount, lines := GroupStep(rows', ps, t, sku, counts, emptyCount, lines, es, g, rows);
      t := t + 1;
    }
    GroupFinish(es, g, ps, rows, rows', sku, counts, emptyCount, lines);
  }

  /** Once every row of the group is done, the bound is the end of the sheet. */
  lemma GroupFinish(es: seq<Entry>, g: string, ps: seq<nat>, rows0: seq<seq<Cell>>, rows: seq<seq<Cell>>,
                    sku: nat, counts: map<string, nat>, emptyCount: nat, lines: seq<LogEntry>)
    requires GroupDone(es, g, ps, |ps|, rows0, rows, sku, counts, emptyCount, lines)
    ensures |rows| == |rows0|
    ensures forall i :: 0 <= i < |rows0| ==>
      rows[i] == (if es[i].scope == Some(g) then rows0[i][sku := Text(FinalAt(es, i))] else rows0[i])
    ensures lines == GroupLines(es, |es|, g)
  {
    assert Bound(ps, |ps|, |es|) == |es|;
  }

  /** Some of the first `n` rows belongs to group `g`. */
  ghost predicate HasGroup(es: seq<Entry>, n: nat, g: string)
    requires n <= |es|
  {
    exists j :: 0 <= j < n && es[j].scope == Some(g)
  }

  lemma {:induction false} PositionsEmpty(es: seq<Entry>, n: nat, g: string)
    requires n <= |es| && !HasGroup(es, n, g)
    ensures Positions(es, n, g) == []
  {
    if n > 0 {
      PositionsEmpty(es, n - 1, g);
    }
  }

  /** `groups` holds, for each group among the first `n` rows, the positions of its rows. */
  ghost predicate GroupsAgree(es: seq<Entry>, n: nat, groups: map<string, seq<nat>>)
    requires n <= |es|
  {
    (forall g :: g in groups <==> HasGroup(es, n, g))
    && forall g :: g in groups ==> groups[g] == Positions(es, n, g)
  }

  lemma GroupsAgreeStep(es: seq<Entry>, n: nat, groups: map<string, seq<nat>>, g: string, positions: seq<nat>)
    requires n < |es| && es[n].scope == Some(g) && GroupsAgree(es, n, groups)
    requires positions == if g in groups then groups[g] else []
    ensures GroupsAgree(es, n + 1, groups[g := positions + [n]])
  {
    if g !in groups {
      PositionsEmpty(es, n, g);
    }
    var groups' := groups[g := positions + [n]];
    forall h
      ensures h in groups' <==> HasGroup(es, n + 1, h)
    {
      if HasGroup(es, n + 1, h) && h != g {
        var j :| 0 <= j < n + 1 && es[j].scope == Some(h);
        assert HasGroup(es, n, h);
      }
    }
  }

  /** Each entry is in the scope of its row's trimmed product ID. */
  ghost predicate ScopedById(es: seq<Entry>, rows: seq<seq<Cell>>, id: nat)
    requires TextAt(rows, id)
  {
    |es| == |rows| && forall i :: 0 <= i < |rows| ==> es[i].scope == Some(Trim(rows[i][id].s))
  }

  lemma ScopedAt(es: seq<Entry>, rows: seq<seq<Cell>>, id: nat, i: nat)
    requires TextAt(rows, id) && ScopedById(es, rows, id) && i < |rows|
    ensures id < |rows[i]| && rows[i][id].Text? && i < |es| && es[i].scope == Some(Trim(rows[i][id].s))
  {
  }

  /** `groupedByProduct`: the positions of the rows of each trimmed product ID, in row order. */
  method GroupRows(rows: seq<seq<Cell>>, id: nat, ghost es: seq<Entry>) returns (groups: map<string, seq<nat>>)
    requires TextAt(rows, id) && ScopedById(es, rows, id)
    ensures GroupsAgree(es, |es|, groups)
  {
    groups := map[];
    var i: nat := 0;
    while i < |rows|
      invariant i <= |rows| == |es|
      invariant GroupsAgree(es, i, groups)
    {
      groups := GroupRow(rows, id, es, i, groups);
      i := i + 1;
    }
  }

  /** Row `i` joins the group of its trimmed product ID, which starts empty the first time. */
  method GroupRow(rows: seq<seq<Cell>>, id: nat, ghost es: seq<Entry>, i: nat, groups: map<string, seq<nat>>)
    returns (groups': map<string, seq<nat>>)
    requires TextAt(rows, id) && ScopedById(es, rows, id) && i < |rows|
    requires GroupsAgree(es, i, groups)
    ensures GroupsAgree(es, i + 1, groups')
  {
    ScopedAt(es, rows, id, i);
    var pid := Trim(rows[i][id].s);
    var positions := if pid in groups then groups[pid] else [];
    GroupsAgreeStep(es, i, groups, pid, positions);
    groups' := groups[pid := positions + [i]];
  }

  /** The lines of the groups `order`, one group after the other. */
  function GroupsLog(es: seq<Entry>, order: seq<string>): seq<LogEntry> {
    if order == [] then []
    else GroupsLog(es, order[..|order| - 1]) + GroupLines(es, |es|, order[|order| - 1])
  }

  /** `order` lists every group once. */
  ghost predicate Enumerates(order: seq<string>, es: seq<Entry>) {
    NoRepeats(order) && forall g :: g in order <==> HasGroup(es, |es|, g)
  }

  /** What holds throughout the outer loop: the entries read from the rows, and the groups found. */
  ghost predicate GroupsFixed(es: seq<Entry>, groups: map<string, seq<nat>>, rows0: seq<seq<Cell>>, sku: nat) {
    |rows0| == |es| && Keyed(es) && GroupsAgree(es, |es|, groups)
    && forall i :: 0 <= i < |es| ==> es[i].scope.Some? && sku < |rows0[i]| && rows0[i][sku] == Text(es[i].sku)
  }

  /** The rows of the groups in `pending` are as they were; the others hold their final SKU. */
  ghost predicate RowsAfter(es: seq<Entry>, pending: set<string>, rows0: seq<seq<Cell>>, rows: seq<seq<Cell>>, sku: nat)
    requires |rows0| == |es| && forall i :: 0 <= i < |es| ==> es[i].scope.Some? && sku < |rows0[i]|
  {
    |rows| == |es|
    && forall i :: 0 <= i < |es| ==>
         rows[i] == (if es[i].scope.value in pending then rows0[i] else rows0[i][sku := Text(FinalAt(es, i))])
  }

  /**
   * The outer loop over the groups: the groups in `pending` are untouched,
   * the groups in `order` are done, and the log holds their lines in that order.
   */
  ghost predicate GroupsDone(es: seq<Entry>, groups: map<string, seq<nat>>, pending: set<string>, order: seq<string>,
                             rows0: seq<seq<Cell>>, rows: seq<seq<Cell>>, sku: nat, log: seq<LogEntry>)
    requires GroupsFixed(es, groups, rows0, sku)
  {
    Split(groups.Keys, pending, order) && RowsAfter(es, pending, rows0, rows, sku) && log == GroupsLog(es, order)
  }

  /** The keys are split between `pending` and `order`, and `order` lists each of its keys once. */
  ghost predicate Split(keys: set<string>, pending: set<string>, order: seq<string>) {
    (forall g :: g in keys <==> g in pending || g in order)
    && (forall g :: g in order ==> g !in pending)
    && NoRepeats(order)
  }

  lemma SplitStep(keys: set<string>, pending: set<string>, order: seq<string>, g: string)
    requires Split(keys, pending, order) && g in pending
    ensures Split(keys, pending - {g}, order + [g])
    ensures |pending - {g}| < |pending|
  {
    var order' := order + [g];
    forall a, b | 0 <= a < b < |order'|
      ensures order'[a] != order'[b]
    {
      if b == |order| {
        assert order'[a] in order;
      } else {
        assert order'[a] == order[a] && order'[b] == order[b];
      }
    }
  }

  lemma RowsAfterStep(es: seq<Entry>, pending: set<string>, rows0: seq<seq<Cell>>, rows: seq<seq<Cell>>, sku: nat,
                      g: string, rows': seq<seq<Cell>>)
    requires |rows0| == |es| && forall i :: 0 <= i < |es| ==> es[i].scope.Some? && sku < |rows0[i]|
    requires RowsAfter(es, pending, rows0, rows, sku) && g in pending && |rows'| == |rows|
    requires forall i :: 0 <= i < |rows| ==>
      rows'[i] == (if es[i].scope == Some(g) then rows[i][sku := Text(FinalAt(es, i))] else rows[i])
    ensures RowsAfter(es, pending - {g}, rows0, rows', sku)
  {
  }

  lemma GroupsLogSnoc(es: seq<Entry>, order: seq<string>, g: string)
    ensures GroupsLog(es, order + [g]) == GroupsLog(es, order) + GroupLines(es, |es|, g)
  {
    assert (order + [g])[..|order|] == order;
  }

  lemma GroupsAdvance(es: seq<Entry>, groups: map<string, seq<nat>>, pending: set<string>, order: seq<string>,
                      rows0: seq<seq<Cell>>, rows: seq<seq<Cell>>, sku: nat, log: seq<LogEntry>,
                      g: string, rows': seq<seq<Cell>>, lines: seq<LogEntry>)
    requires GroupsFixed(es, groups, rows0, sku)
    requires GroupsDone(es, groups, pending, order, rows0, rows, sku, log) && g in pending
    requires |rows'| == |rows|
    requires forall i :: 0 <= i < |rows| ==>
      rows'[i] == (if es[i].scope == Some(g) then rows[i][sku := Text(FinalAt(es, i))] else rows[i])
    requires lines == GroupLines(es, |es|, g)
    ensures GroupsDone(es, groups, pending - {g}, order + [g], rows0, rows', sku, log + lines)
    ensures |pending - {g}| < |pending|
  {
    SplitStep(groups.Keys, pending, order, g);
    RowsAfterStep(es, pending, rows0, rows, sku, g, rows');
    GroupsLogSnoc(es, order, g);
  }

  /** A pending group is ready for its pass: its positions are known and its rows are as they were. */
  lemma PendingReady(es: seq<Entry>, groups: map<string, seq<nat>>, pending: set<string>, order: seq<string>,
                     rows0: seq<seq<Cell>>, rows: seq<seq<Cell>>, sku: nat, log: seq<LogEntry>, g: string)
    requires GroupsFixed(es, groups, rows0, sku)
    requires GroupsDone(es, groups, pending, order, rows0, rows, sku, log) && g in pending
    ensures g in groups && groups[g] == Positions(es, |es|, g)
    ensures GroupSkus(es, g, rows, sku)
  {
    PendingRows(es, pending, rows0, rows, sku, g);
  }

  lemma PendingRows(es: seq<Entry>, pending: set<string>, rows0: seq<seq<Cell>>, rows: seq<seq<Cell>>, sku: nat, g: string)
    requires |rows0| == |es|
    requires forall i :: 0 <= i < |es| ==> es[i].scope.Some? && sku < |rows0[i]| && rows0[i][sku] == Text(es[i].sku)
    requires RowsAfter(es, pending, rows0, rows, sku) && g in pending
    ensures GroupSkus(es, g, rows, sku)
  {
    forall i | 0 <= i < |rows|
      ensures sku < |rows[i]| && (es[i].scope == Some(g) ==> rows[i][sku] == Text(es[i].sku))
    {
      if es[i].scope == Some(g) {
        assert rows[i] == rows0[i];
      }
    }
  }

  /** One group through its pass. */
  method GroupsStep(rows: seq<seq<Cell>>, groups: map<string, seq<nat>>, sku: nat, log: seq<LogEntry>, g: string,
                    ghost es: seq<Entry>, ghost pending: set<string>, ghost order: seq<string>, ghost rows0: seq<seq<Cell>>)
    returns (rows': seq<seq<Cell>>, log': seq<LogEntry>)
    requires GroupsFixed(es, groups, rows0, sku)
    requires GroupsDone(es, groups, pending, order, rows0, rows, sku, log) && g in pending
    ensures GroupsDone(es, groups, pending - {g}, order + [g], rows0, rows', sku, log')
    ensures |pending - {g}| < |pending|
  {
    PendingReady(es, groups, pending, order, rows0, rows, sku, log, g);
    var lines;
    rows', lines := DedupGroup(rows, groups[g], sku, es, g);
    GroupsAdvance(es, groups, pending, order, rows0, rows, sku, log, g, rows', lines);
    log' := log + lines;
  }

  lemma GroupsStart(es: seq<Entry>, groups: map<string, seq<nat>>, rows: seq<seq<Cell>>, sku: nat)
    requires GroupsFixed(es, groups, rows, sku)
    ensures GroupsDone(es, groups, groups.Keys, [], rows, rows, sku, [])
  {
    forall i | 0 <= i < |es|
      ensures es[i].scope.value in groups.Keys
    {
      assert HasGroup(es, |es|, es[i].scope.value);
    }
  }

  lemma GroupsFinish(es: seq<Entry>, groups: map<string, seq<nat>>, order: seq<string>,
                     rows0: seq<seq<Cell>>, rows: seq<seq<Cell>>, sku: nat, log: seq<LogEntry>)
    requires GroupsFixed(es, groups, rows0, sku)
    requires GroupsDone(es, groups, {}, order, rows0, rows, sku, log)
    ensures |rows| == |rows0| && forall i :: 0 <= i < |rows0| ==> rows[i] == rows0[i][sku := Text(FinalAt(es, i))]
    ensures Enumerates(order, es) && log == GroupsLog(es, order)
  {
  }

  lemma EntriesScoped(rows: seq<seq<Cell>>, id: nat, sku: nat)
    requires TextAt(rows, id) && TextAt(rows, sku)
    ensures ScopedById(GroupEntries(rows, id, sku), rows, id)
  {
  }

  lemma GroupsSetup(rows: seq<seq<Cell>>, id: nat, sku: nat, groups: map<string, seq<nat>>)
    requires TextAt(rows, id) && TextAt(rows, sku)
    requires GroupsAgree(GroupEntries(rows, id, sku), |rows|, groups)
    ensures GroupsFixed(GroupEntries(rows, id, sku), groups, rows, sku)
  {
  }

  /**
   * The option SKU pass: group the rows by trimmed product ID, then run the
   * rule over each group, in an order the JavaScript runtime chooses (`order`).
   */
  method DedupGroups(rows: seq<seq<Cell>>, id: nat, sku: nat) returns (rows': seq<seq<Cell>>, log: seq<LogEntry>, ghost order: seq<string>)
    requires TextAt(rows, id) && TextAt(rows, sku)
    ensures var es := GroupEntries(rows, id, sku);
      |rows'| == |rows| && (forall i :: 0 <= i < |rows| ==> rows'[i] == rows[i][sku := Text(FinalAt(es, i))])
      && Enumerates(order, es) && log == GroupsLog(es, order)
  {
    ghost var es := GroupEntries(rows, id, sku);
    EntriesScoped(rows, id, sku);
    var groups := GroupRows(rows, id, es);
    GroupsSetup(rows, id, sku, groups);
    GroupsStart(es, groups, rows, sku);
    var pending := groups.Keys;
    rows' := rows;
    log := [];
    order := [];
    while pending != {}
      invariant GroupsDone(es, groups, pending, order, rows, rows', sku, log)
      decreases |pending|
    {
      var g :| g in pending;
      rows', log := GroupsStep(rows', groups, sku, log, g, es, pending, order, rows);
      order := order + [g];
      pending := pending - {g};
    }
    GroupsFinish(es, groups, order, rows, rows', sku, log);
  }

  // ---- Output ----

  /** One output row: the output columns in order, `''` where the header lacks one. */
  function Projected(row: seq<Cell>, header: seq<string>): (r: seq<Cell>)
    requires |header| <= |row|
    ensures |r| == |Required|
  {
    var indices := IndicesOf(Required, header);
    seq(|Required|, k requires 0 <= k < |Required| => if indices[k] != -1 then row[indices[k]] else Text(""))
  }

  /** `parseNumeric` on the two quantities and the price. */
  function CoercedRow(row: seq<Cell>, parse: Parser): (r: seq<Cell>)
    requires |row| == |Required|
    ensures |r| == |Required|
    ensures forall k :: 0 <= k < |Required| && k != MinOut && k != MaxOut && k != PriceOut ==> r[k] == row[k]
    ensures r[MinOut] == Number(Coerce(parse, row[MinOut])) && r[MaxOut] == Number(Coerce(parse, row[MaxOut]))
    ensures r[PriceOut] == Number(Coerce(parse, row[PriceOut]))
  {
    row[MinOut := Number(Coerce(parse, row[MinOut]))]
       [MaxOut := Number(Coerce(parse, row[MaxOut]))]
       [PriceOut := Number(Coerce(parse, row[PriceOut]))]
  }

  /** The numeric pass, in place over the output rows. */
  method CoerceNumbers(a: array<seq<Cell>>, parse: Parser)
    requires forall i :: 0 <= i < a.Length ==> |a[i]| == |Required|
    modifies a
    ensures forall i :: 0 <= i < a.Length ==> a[i] == CoercedRow(old(a[i]), parse)
  {
    var i := 0;
    while i < a.Length
      invariant 0 <= i <= a.Length
      invariant forall j :: 0 <= j < i ==> a[j] == CoercedRow(old(a[j]), parse)
      invariant forall j :: i <= j < a.Length ==> a[j] == old(a[j])
    {
      a[i] := CoercedRow(a[i], parse);
      i := i + 1;
    }
  }

  // ---- The whole reconciler ----

  /** Every row has `w` cells. */
  predicate Width<T>(rows: seq<seq<T>>, w: nat) {
    forall i :: 0 <= i < |rows| ==> |rows[i]| == w
  }

  /** The working rows after the sync, the row numbers and the quantity fill. */
  function Worked(content: seq<seq<string>>, header: seq<string>, m: map<string, string>): (r: seq<seq<Cell>>)
    requires Width(content, |header|)
    ensures |r| == |content| && Width(r, |header| + 1)
  {
    var c := ColumnsOf(header);
    Filled(Numbered(SyncedContent(content, c, m)), c)
  }

  /** The quantity fill over every working row. */
  function Filled(rows: seq<seq<Cell>>, c: Columns): (r: seq<seq<Cell>>)
    requires FillFits(rows, c)
    ensures |r| == |rows| && forall i :: 0 <= i < |rows| ==> r[i] == FilledRow(rows[i], c)
  {
    seq(|rows|, i requires 0 <= i < |rows| => FilledRow(rows[i], c))
  }

  /** The option SKU pass over the working rows; it runs only when both the SKU and the ID columns exist. */
  function Deduped(rows: seq<seq<Cell>>, c: Columns): (r: seq<seq<Cell>>)
    requires -1 <= c.id && -1 <= c.sku
    requires c.id != -1 && c.sku != -1 ==> TextAt(rows, c.id as nat) && TextAt(rows, c.sku as nat)
    ensures |r| == |rows| && forall i :: 0 <= i < |rows| ==> |r[i]| == |rows[i]|
  {
    if c.id == -1 || c.sku == -1 then rows
    else
      var es := GroupEntries(rows, c.id as nat, c.sku as nat);
      seq(|rows|, i requires 0 <= i < |rows| => rows[i][c.sku as nat := Text(FinalAt(es, i))])
  }

  /** The cells the sync and the quantity fill leave alone keep their text: the ID and the option SKU. */
  lemma WorkedKeeps(content: seq<seq<string>>, header: seq<string>, m: map<string, string>, i: nat, k: int)
    requires Width(content, |header|) && i < |content|
    requires k == ColumnsOf(header).id || k == ColumnsOf(header).sku
    requires 0 <= k
    ensures Worked(content, header, m)[i][k] == Text(content[i][k])
  {
    var c := ColumnsOf(header);
    ColumnsSeparate(header);
    var synced := SyncedContent(content, c, m);
    assert synced[i][k] == content[i][k];
    FilledRowKeeps(Numbered(synced)[i], c, k);
  }

  lemma WorkedText(content: seq<seq<string>>, header: seq<string>, m: map<string, string>)
    requires Width(content, |header|)
    ensures var c := ColumnsOf(header); var w := Worked(content, header, m);
      c.id != -1 && c.sku != -1 ==> TextAt(w, c.id as nat) && TextAt(w, c.sku as nat)
  {
    var c := ColumnsOf(header);
    if c.id != -1 && c.sku != -1 {
      forall i | 0 <= i < |content|
        ensures Worked(content, header, m)[i][c.id] == Text(content[i][c.id])
        ensures Worked(content, header, m)[i][c.sku] == Text(content[i][c.sku])
      {
        WorkedKeeps(content, header, m, i, c.id);
        WorkedKeeps(content, header, m, i, c.sku);
      }
    }
  }

  /** The output rows for the data rows `content` under `header`. */
  function Output(content: seq<seq<string>>, header: seq<string>, m: map<string, string>, parse: Parser): (r: seq<seq<Cell>>)
    requires Width(content, |header|)
    ensures |r| == |content|
  {
    Finished(Reconciled(content, header, m), header, parse)
  }

  /** The working rows once every pass has run, before the projection. */
  function Reconciled(content: seq<seq<string>>, header: seq<string>, m: map<string, string>): (r: seq<seq<Cell>>)
    requires Width(content, |header|)
    ensures |r| == |content| && Width(r, |header| + 1)
  {
    WorkedText(content, header, m);
    Deduped(Worked(content, header, m), ColumnsOf(header))
  }

  /** The projection to the output columns and the numeric pass. */
  function Finished(rows: seq<seq<Cell>>, header: seq<string>, parse: Parser): (r: seq<seq<Cell>>)
    requires forall i :: 0 <= i < |rows| ==> |header| <= |rows[i]|
    ensures |r| == |rows| && forall i :: 0 <= i < |rows| ==> r[i] == CoercedRow(Projected(rows[i], header), parse)
  {
    seq(|rows|, i requires 0 <= i < |rows| => CoercedRow(Projected(rows[i], header), parse))
  }

  /** The log of a run: the sync lines, then the option SKU lines of each group in `order`. */
  ghost predicate OptionLog(content: seq<seq<string>>, header: seq<string>, m: map<string, string>,
                            log: seq<LogEntry>, order: seq<string>)
    requires Width(content, |header|)
  {
    var c := ColumnsOf(header);
    if c.id != -1 && c.sku != -1 then
      var es := OptionEntries(content, c.id as nat, c.sku as nat);
      Enumerates(order, es) && log == SyncPart(content, header, m) + GroupsLog(es, order)
    else log == SyncPart(content, header, m)
  }

  /** The sync part of a run's log: one line per product ID whose SKU the sync changes, when it runs. */
  ghost function SyncPart(content: seq<seq<string>>, header: seq<string>, m: map<string, string>): seq<LogEntry>
    requires Width(content, |header|)
  {
    var c := ColumnsOf(header);
    if c.id != -1 && c.skuProduct != -1
    then SyncLines(ProductRefs(content, c.id as nat, c.skuProduct as nat), |content|, m) else []
  }

  /** The option SKU entries read from the uploaded cells: each row in the scope of its trimmed product ID. */
  function OptionEntries(content: seq<seq<string>>, id: nat, sku: nat): (es: seq<Entry>)
    requires Fits(content, id) && Fits(content, sku)
    ensures |es| == |content|
    ensures forall i :: 0 <= i < |content| ==> es[i] == MakeEntry(Some(Trim(content[i][id])), content[i][sku])
  {
    seq(|content|, i requires 0 <= i < |content| => MakeEntry(Some(Trim(content[i][id])), content[i][sku]))
  }

  /** The option SKU pass sees the uploaded ID and option SKU, untouched by the sync and the quantity fill. */
  lemma WorkedEntries(content: seq<seq<string>>, header: seq<string>, m: map<string, string>)
    requires Width(content, |header|)
    requires ColumnsOf(header).id != -1 && ColumnsOf(header).sku != -1
    ensures var c := ColumnsOf(header);
      TextAt(Worked(content, header, m), c.id as nat) && TextAt(Worked(content, header, m), c.sku as nat)
      && GroupEntries(Worked(content, header, m), c.id as nat, c.sku as nat) == OptionEntries(content, c.id as nat, c.sku as nat)
  {
    var c := ColumnsOf(header);
    WorkedText(content, header, m);
    forall i | 0 <= i < |content|
      ensures Worked(content, header, m)[i][c.id] == Text(content[i][c.id])
      ensures Worked(content, header, m)[i][c.sku] == Text(content[i][c.sku])
    {
      WorkedKeeps(content, header, m, i, c.id);
      WorkedKeeps(content, header, m, i, c.sku);
    }
  }

  /**
   * `processOpcionales(data, idToSkuMap)`, with `parseFloat` passed in as
   * `parse`. Tables shorter than two rows give nothing. The groups are visited
   * in the ghost `order`, which JavaScript's `for...in` fixes and which this
   * model leaves open.
   */
  method ProcessOpcionales(data: seq<seq<string>>, m: map<string, string>, parse: Parser)
    returns (rows: seq<seq<Cell>>, log: seq<LogEntry>, ghost order: seq<string>)
    requires |data| >= 2 ==> Width(data[1..], |data[0]|)
    ensures |data| < 2 ==> rows == [] && log == []
    ensures |data| >= 2 ==>
      rows == Output(data[1..], TrimRow(data[0]), m, parse) && OptionLog(data[1..], TrimRow(data[0]), m, log, order)
  {
    if |data| < 2 {
      return [], [], [];
    }
    rows, log, order := ProcessTable(TrimRow(data[0]), data[1..], m, parse);
  }

  /** The passes over the data rows `content` under the trimmed `header`. */
  method ProcessTable(header: seq<string>, content: seq<seq<string>>, m: map<string, string>, parse: Parser)
    returns (rows: seq<seq<Cell>>, log: seq<LogEntry>, ghost order: seq<string>)
    requires Width(content, |header|)
    ensures rows == Output(content, header, m, parse) && OptionLog(content, header, m, log, order)
  {
    var worked, syncLog := WorkRows(content, header, m);
    var c := ColumnsOf(header);
    var deduped, optionLog;
    deduped, optionLog, order := OptionPass(worked, c, content, header, m);
    log := syncLog + optionLog;
    rows := FinishRows(deduped, header, parse);
  }

  /** The sync, the row numbers, the (empty) filter and the quantity fill. */
  method WorkRows(content: seq<seq<string>>, header: seq<string>, m: map<string, string>)
    returns (worked: seq<seq<Cell>>, log: seq<LogEntry>)
    requires Width(content, |header|)
    ensures worked == Worked(content, header, m)
    ensures var c := ColumnsOf(header);
      log == if c.id != -1 && c.skuProduct != -1
        then SyncLines(ProductRefs(content, c.id as nat, c.skuProduct as nat), |content|, m) else []
  {
    var c := ColumnsOf(header);
    var synced;
    synced, log := SyncPass(content, c, m);
    var numbered := Numbered(synced);
    NothingDropped(synced);
    var filtered := KeepNonBlank(numbered);
    worked := FillPass(filtered, c);
  }

  /** The quantity fill, in place over a fresh copy of the numbered rows. */
  method FillPass(rows: seq<seq<Cell>>, c: Columns) returns (worked: seq<seq<Cell>>)
    requires FillFits(rows, c)
    ensures worked == Filled(rows, c)
  {
    var a := new seq<Cell>[|rows|](i requires 0 <= i < |rows| => rows[i]);
    assert a[..] == rows;
    FillQuantities(a, c);
    worked := a[..];
  }

  /** The two sync passes over the content rows, when both product columns exist. */
  method SyncPass(content: seq<seq<string>>, c: Columns, m: map<string, string>)
    returns (synced: seq<seq<string>>, log: seq<LogEntry>)
    requires -1 <= c.id && -1 <= c.skuProduct
    requires forall i :: 0 <= i < |content| ==> c.id < |content[i]| && c.skuProduct < |content[i]|
    ensures synced == SyncedContent(content, c, m)
    ensures log == if c.id != -1 && c.skuProduct != -1
      then SyncLines(ProductRefs(content, c.id as nat, c.skuProduct as nat), |content|, m) else []
  {
    if c.id == -1 || c.skuProduct == -1 {
      return content, [];
    }
    log := SyncLog(content, c.id as nat, c.skuProduct as nat, m);
    var a := new seq<string>[|content|](i requires 0 <= i < |content| => content[i]);
    SyncRows(a, c.id as nat, c.skuProduct as nat, m);
    synced := a[..];
  }

  /** The option SKU pass, when both the option SKU and the ID columns exist. */
  method OptionPass(worked: seq<seq<Cell>>, c: Columns, ghost content: seq<seq<string>>, ghost header: seq<string>,
                    ghost m: map<string, string>)
    returns (rows: seq<seq<Cell>>, log: seq<LogEntry>, ghost order: seq<string>)
    requires Width(content, |header|) && c == ColumnsOf(header) && worked == Worked(content, header, m)
    ensures c.id != -1 && c.sku != -1 ==> TextAt(worked, c.id as nat) && TextAt(worked, c.sku as nat)
    ensures rows == Deduped(worked, c) == Reconciled(content, header, m)
    ensures c.id != -1 && c.sku != -1 ==>
      var es := OptionEntries(content, c.id as nat, c.sku as nat); Enumerates(order, es) && log == GroupsLog(es, order)
    ensures c.id == -1 || c.sku == -1 ==> log == []
  {
    if c.id == -1 || c.sku == -1 {
      return worked, [], [];
    }
    WorkedEntries(content, header, m);
    rows, log, order := DedupGroups(worked, c.id as nat, c.sku as nat);
  }

  /** The projection and the numeric pass, in place over a fresh output table. */
  method FinishRows(rows: seq<seq<Cell>>, header: seq<string>, parse: Parser) returns (out: seq<seq<Cell>>)
    requires forall i :: 0 <= i < |rows| ==> |header| <= |rows[i]|
    ensures out == Finished(rows, header, parse)
  {
    var a := new seq<Cell>[|rows|](i requires 0 <= i < |rows| => Projected(rows[i], header));
    CoerceNumbers(a, parse);
    out := a[..];
  }

  // ---- What the output promises ----

  /** A reconciled cell that no pass writes keeps the (synced) upload. */
  lemma ReconciledAt(content: seq<seq<string>>, header: seq<string>, m: map<string, string>, i: nat, k: nat)
    requires Width(content, |header|) && i < |content| && k < |header|
    requires var c := ColumnsOf(header); k != c.min && k != c.max && (k == c.sku ==> c.id == -1)
    ensures var c := ColumnsOf(header);
      Reconciled(content, header, m)[i][k] == Text(SyncedContent(content, c, m)[i][k])
  {
    var c := ColumnsOf(header);
    var synced := SyncedContent(content, c, m);
    FilledRowKeeps(Numbered(synced)[i], c, k);
  }

  /** The option SKU cell of a reconciled row is the final SKU of its entry. */
  lemma ReconciledSku(content: seq<seq<string>>, header: seq<string>, m: map<string, string>, i: nat)
    requires Width(content, |header|) && i < |content|
    requires ColumnsOf(header).id != -1 && ColumnsOf(header).sku != -1
    ensures var c := ColumnsOf(header);
      Reconciled(content, header, m)[i][c.sku] == Text(FinalAt(OptionEntries(content, c.id as nat, c.sku as nat), i))
  {
    WorkedEntries(content, header, m);
  }

  /** An output cell other than the numeric ones is the reconciled cell under its header, or `''`. */
  lemma OutputAt(content: seq<seq<string>>, header: seq<string>, m: map<string, string>, parse: Parser, i: nat, k: nat)
    requires Width(content, |header|) && i < |content| && k < |Required|
    requires k != MinOut && k != MaxOut && k != PriceOut
    ensures var idx := IndexOf(header, Required[k]);
      Output(content, header, m, parse)[i][k] == if idx == -1 then Text("") else Reconciled(content, header, m)[i][idx]
  {
    var row := Reconciled(content, header, m)[i];
    var p := Projected(row, header);
    assert Output(content, header, m, parse)[i] == CoercedRow(p, parse);
    assert CoercedRow(p, parse)[k] == p[k];
  }

  /** The sync writes nothing but the product SKU column, and there only the mapped SKU. */
  lemma SyncedAt(content: seq<seq<string>>, header: seq<string>, m: map<string, string>, i: nat, k: nat)
    requires Width(content, |header|) && i < |content| && k < |header|
    ensures var c := ColumnsOf(header); var pid := if c.id == -1 then "" else Trim(content[i][c.id]);
      SyncedContent(content, c, m)[i][k]
      == if k == c.skuProduct && c.id != -1 && Mapped(m, pid) then m[pid] else content[i][k]
  {
  }

  /** The product SKU in the output is the uploaded one, or the SKU the product table settled on for its ID. */
  lemma OutputProductSku(content: seq<seq<string>>, header: seq<string>, m: map<string, string>, parse: Parser, i: nat)
    requires Width(content, |header|) && i < |content| && ColumnsOf(header).skuProduct != -1
    ensures var c := ColumnsOf(header); var pid := if c.id == -1 then "" else Trim(content[i][c.id]);
      Output(content, header, m, parse)[i][ProductSkuOut]
      == Text(if c.id != -1 && Mapped(m, pid) then m[pid] else content[i][c.skuProduct])
  {
    var c := ColumnsOf(header);
    RequiredNames();
    OutputAt(content, header, m, parse, i, ProductSkuOut);
    ColumnsSeparate(header);
    ReconciledAt(content, header, m, i, c.skuProduct as nat);
    SyncedAt(content, header, m, i, c.skuProduct as nat);
  }

  /** The option SKU in the output is the final SKU the option pass gives the uploaded cell; without an ID column, the cell itself. */
  lemma OutputOptionSku(content: seq<seq<string>>, header: seq<string>, m: map<string, string>, parse: Parser, i: nat)
    requires Width(content, |header|) && i < |content| && ColumnsOf(header).sku != -1
    ensures var c := ColumnsOf(header);
      Output(content, header, m, parse)[i][SkuOut]
      == Text(if c.id == -1 then content[i][c.sku] else FinalAt(OptionEntries(content, c.id as nat, c.sku as nat), i))
  {
    var c := ColumnsOf(header);
    RequiredNames();
    OutputAt(content, header, m, parse, i, SkuOut);
    if c.id != -1 {
      ReconciledSku(content, header, m, i);
    } else {
      ColumnsSeparate(header);
      ReconciledAt(content, header, m, i, c.sku as nat);
      SyncedAt(content, header, m, i, c.sku as nat);
    }
  }

  /** The two quantities and the price come out as numbers, never negative. */
  lemma OutputNumbers(content: seq<seq<string>>, header: seq<string>, m: map<string, string>, parse: Parser, i: nat)
    requires Width(content, |header|) && i < |content|
    ensures var r := Output(content, header, m, parse)[i];
      r[MinOut].Number? && r[MinOut].v >= 0.0 && r[MaxOut].Number? && r[MaxOut].v >= 0.0
      && r[PriceOut].Number? && r[PriceOut].v >= 0.0
  {
    var row := Reconciled(content, header, m)[i];
    assert Output(content, header, m, parse)[i] == CoercedRow(Projected(row, header), parse);
  }

  /**
   * Every other output column is the uploaded cell under that header, or `''`
   * when the header lacks it.
   */
  lemma OutputCopied(content: seq<seq<string>>, header: seq<string>, m: map<string, string>, parse: Parser, i: nat, k: nat)
    requires Width(content, |header|) && i < |content| && k < |Required|
    requires k != MinOut && k != MaxOut && k != PriceOut && k != ProductSkuOut && k != SkuOut
    ensures var idx := IndexOf(header, Required[k]);
      Output(content, header, m, parse)[i][k] == Text(if idx == -1 then "" else content[i][idx])
  {
    var c := ColumnsOf(header);
    var idx := IndexOf(header, Required[k]);
    OutputAt(content, header, m, parse, i, k);
    if idx != -1 {
      CopiedName(k);
      ColumnsApart(header, Required[k]);
      ReconciledAt(content, header, m, i, idx);
      SyncedAt(content, header, m, i, idx);
    }
  }

  /** The price is `parseNumeric` of the uploaded cell, or of `''` when there is no price column. */
  lemma OutputPrice(content: seq<seq<string>>, header: seq<string>, m: map<string, string>, parse: Parser, i: nat)
    requires Width(content, |header|) && i < |content|
    ensures var idx := IndexOf(header, "Precio");
      Output(content, header, m, parse)[i][PriceOut] == Number(Coerce(parse, Text(if idx == -1 then "" else content[i][idx])))
  {
    var idx := IndexOf(header, "Precio");
    var row := Reconciled(content, header, m)[i];
    var p := Projected(row, header);
    RequiredNames();
    assert Output(content, header, m, parse)[i] == CoercedRow(p, parse);
    if idx != -1 {
      ColumnsApart(header, "Precio");
      ReconciledAt(content, header, m, i, idx);
      SyncedAt(content, header, m, i, idx);
      assert p[PriceOut] == row[idx] == Text(content[i][idx]);
    } else {
      assert p[PriceOut] == Text("");
    }
  }

  /** A column under any other name sits apart from the columns the passes write. */
  lemma ColumnsApart(header: seq<string>, name: string)
    requires name != "Cantidad mínima Grupo de opciones" && name != "Cantidad máxima Grupo de opciones"
    requires name != "SKU" && name != "SKU Producto"
    ensures var c := ColumnsOf(header); var idx := IndexOf(header, name);
      idx == -1 || (idx != c.min && idx != c.max && idx != c.sku && idx != c.skuProduct)
  {
  }

  /** The output columns copied as uploaded carry none of the names the passes write. */
  lemma CopiedName(k: nat)
    requires k < |Required| && k != MinOut && k != MaxOut && k != PriceOut && k != ProductSkuOut && k != SkuOut
    ensures Required[k] != "Cantidad mínima Grupo de opciones" && Required[k] != "Cantidad máxima Grupo de opciones"
    ensures Required[k] != "SKU" && Required[k] != "SKU Producto"
  {
    assert k in {1, 2, 3, 6, 9, 10};
  }

  /** The names under the output positions the passes write. */
  lemma RequiredNames()
    ensures Required[ProductSkuOut] == "SKU Producto" && Required[SkuOut] == "SKU" && Required[PriceOut] == "Precio"
    ensures Required[MinOut] == "Cantidad mínima Grupo de opciones" && Required[MaxOut] == "Cantidad máxima Grupo de opciones"
  {
  }

  /** The quantities in the output are `parseNumeric` of the filled working cells. */
  lemma OutputQuantityCells(content: seq<seq<string>>, header: seq<string>, m: map<string, string>, parse: Parser, i: nat)
    requires Width(content, |header|) && i < |content|
    requires ColumnsOf(header).min != -1 && ColumnsOf(header).max != -1
    ensures var c := ColumnsOf(header); var w := Worked(content, header, m)[i]; var r := Output(content, header, m, parse)[i];
      r[MinOut] == Number(Coerce(parse, w[c.min])) && r[MaxOut] == Number(Coerce(parse, w[c.max]))
  {
    var c := ColumnsOf(header);
    ColumnsSeparate(header);
    RequiredNames();
    var row := Reconciled(content, header, m)[i];
    var p := Projected(row, header);
    assert Output(content, header, m, parse)[i] == CoercedRow(p, parse);
    assert p[MinOut] == row[c.min] && p[MaxOut] == row[c.max];
    WorkedText(content, header, m);
  }

  /**
   * The quantity rule as the output shows it, in terms of the uploaded cells:
   * a minimum given keeps both quantities; a maximum alone gets a minimum of 0;
   * neither takes the group quantity, when there is one, for both.
   */
  lemma OutputQuantities(content: seq<seq<string>>, header: seq<string>, m: map<string, string>, parse: Parser, i: nat)
    requires Width(content, |header|) && i < |content|
    requires ColumnsOf(header).min != -1 && ColumnsOf(header).max != -1
    ensures var c := ColumnsOf(header); var r := Output(content, header, m, parse)[i];
      var min := content[i][c.min]; var max := content[i][c.max];
      var group := c.group != -1 && Trim(content[i][c.group]) != "";
      (Trim(min) != "" ==> r[MinOut] == Number(Coerce(parse, Text(min))) && r[MaxOut] == Number(Coerce(parse, Text(max))))
      && (Trim(min) == "" && Trim(max) != "" ==> r[MinOut] == Number(0.0) && r[MaxOut] == Number(Coerce(parse, Text(max))))
      && (Trim(min) == "" && Trim(max) == "" && group ==>
            r[MinOut] == r[MaxOut] == Number(Coerce(parse, Text(content[i][c.group]))))
      && (Trim(min) == "" && Trim(max) == "" && !group ==>
            r[MinOut] == Number(Coerce(parse, Text(min))) && r[MaxOut] == Number(Coerce(parse, Text(max))))
  {
    WorkedQuantities(content, header, m, i);
    OutputQuantityCells(content, header, m, parse, i);
  }

  /** The quantity fill on the working row, in terms of the uploaded cells. */
  lemma WorkedQuantities(content: seq<seq<string>>, header: seq<string>, m: map<string, string>, i: nat)
    requires Width(content, |header|) && i < |content|
    requires ColumnsOf(header).min != -1 && ColumnsOf(header).max != -1
    ensures var c := ColumnsOf(header); var w := Worked(content, header, m)[i];
      var min := content[i][c.min]; var max := content[i][c.max];
      var group := c.group != -1 && Trim(content[i][c.group]) != "";
      (Trim(min) != "" ==> w[c.min] == Text(min) && w[c.max] == Text(max))
      && (Trim(min) == "" && Trim(max) != "" ==> w[c.min] == Number(0.0) && w[c.max] == Text(max))
      && (Trim(min) == "" && Trim(max) == "" && group ==> w[c.min] == w[c.max] == Text(content[i][c.group]))
      && (Trim(min) == "" && Trim(max) == "" && !group ==> w[c.min] == Text(min) && w[c.max] == Text(max))
  {
    var c := ColumnsOf(header);
    ColumnsSeparate(header);
    NumberedQuantityCells(content, header, m, i);
    QuantityRule(Numbered(SyncedContent(content, c, m))[i], c);
  }

  /** The quantity fill reads the uploaded quantity cells: the sync does not touch them. */
  lemma NumberedQuantityCells(content: seq<seq<string>>, header: seq<string>, m: map<string, string>, i: nat)
    requires Width(content, |header|) && i < |content|
    requires ColumnsOf(header).min != -1 && ColumnsOf(header).max != -1
    ensures var c := ColumnsOf(header); var row := Numbered(SyncedContent(content, c, m))[i];
      row[c.min] == Text(content[i][c.min]) && row[c.max] == Text(content[i][c.max])
      && (HasAt(row, c.group) <==> c.group != -1 && Trim(content[i][c.group]) != "")
      && (c.group != -1 ==> row[c.group] == Text(content[i][c.group]))
  {
    var c := ColumnsOf(header);
    ColumnsSeparate(header);
    SyncedAt(content, header, m, i, c.min as nat);
    SyncedAt(content, header, m, i, c.max as nat);
    if c.group != -1 {
      SyncedAt(content, header, m, i, c.group as nat);
    }
  }

  /** Two options of one product that were uploaded with the same SKU come out with different SKUs. */
  lemma OutputSkusDistinct(content: seq<seq<string>>, header: seq<string>, m: map<string, string>, parse: Parser, i: nat, j: nat)
    requires Width(content, |header|) && i < j < |content|
    requires ColumnsOf(header).id != -1 && ColumnsOf(header).sku != -1
    requires var c := ColumnsOf(header);
      Trim(content[i][c.id]) == Trim(content[j][c.id]) && Trim(content[i][c.sku]) == Trim(content[j][c.sku])
    ensures Output(content, header, m, parse)[i][SkuOut] != Output(content, header, m, parse)[j][SkuOut]
  {
    var c := ColumnsOf(header);
    OutputOptionSku(content, header, m, parse, i);
    OutputOptionSku(content, header, m, parse, j);
    DistinctWithinScope(OptionEntries(content, c.id as nat, c.sku as nat), i, j);
  }

  /**
   * An option keeps its non-blank SKU, up to blanks around it, exactly when
   * no earlier option of the same product was uploaded with that SKU.
   */
  lemma OutputSkuKeptIffFirst(content: seq<seq<string>>, header: seq<string>, m: map<string, string>, parse: Parser, i: nat)
    requires Width(content, |header|) && i < |content|
    requires ColumnsOf(header).id != -1 && ColumnsOf(header).sku != -1
    requires Trim(content[i][ColumnsOf(header).sku]) != ""
    ensures var c := ColumnsOf(header); var out := Output(content, header, m, parse)[i][SkuOut];
      var key := Trim(content[i][c.sku]);
      out.Text? && (Trim(out.s) == key <==>
        forall j :: 0 <= j < i && Trim(content[j][c.id]) == Trim(content[i][c.id]) ==> Trim(content[j][c.sku]) != key)
  {
    var c := ColumnsOf(header);
    OutputOptionSku(content, header, m, parse, i);
    EntryKeptIffFirst(content, c.id as nat, c.sku as nat, i);
  }

  /** `OutputSkuKeptIffFirst` on the entries read from the uploaded cells. */
  lemma EntryKeptIffFirst(content: seq<seq<string>>, id: nat, sku: nat, i: nat)
    requires Fits(content, id) && Fits(content, sku) && i < |content| && Trim(content[i][sku]) != ""
    ensures var key := Trim(content[i][sku]);
      Trim(FinalAt(OptionEntries(content, id, sku), i)) == key <==>
        forall j :: 0 <= j < i && Trim(content[j][id]) == Trim(content[i][id]) ==> Trim(content[j][sku]) != key
  {
    var es := OptionEntries(content, id, sku);
    OnlyFirstKeepsSku(es, i);
    CountZeroIffAbsent(es, i, es[i].scope.value, es[i].key);
  }

  /** When the option SKU pass runs, no option comes out with a blank SKU. */
  lemma OutputSkuNotBlank(content: seq<seq<string>>, header: seq<string>, m: map<string, string>, parse: Parser, i: nat)
    requires Width(content, |header|) && i < |content|
    requires ColumnsOf(header).id != -1 && ColumnsOf(header).sku != -1
    ensures var out := Output(content, header, m, parse)[i][SkuOut]; out.Text? && Trim(out.s) != ""
  {
    var c := ColumnsOf(header);
    var es := OptionEntries(content, c.id as nat, c.sku as nat);
    OutputOptionSku(content, header, m, parse, i);
    MappedIsTrimmedFinal(ScopeKeys(es, i, es[i].scope.value), es[i].sku, es[i].key);
  }

  // ---- What the log promises ----

  /** Every line of the option SKU part of the log reports a row of one of the groups visited. */
  lemma {:induction false} GroupsLogReport(es: seq<Entry>, order: seq<string>)
    ensures forall e :: e in GroupsLog(es, order) ==> exists g :: g in order && ReportsRow(es, g, e)
  {
    if order != [] {
      var front := order[..|order| - 1];
      var g := order[|order| - 1];
      GroupsLogReport(es, front);
      GroupLinesReport(es, |es|, g);
      forall e | e in GroupsLog(es, order)
        ensures exists h :: h in order && ReportsRow(es, h, e)
      {
        if e in GroupsLog(es, front) {
          var h :| h in front && ReportsRow(es, h, e);
          assert h in order;
        } else {
          assert e in GroupLines(es, |es|, g);
        }
      }
    }
  }

  /** The lines of every group visited are in the option SKU part of the log. */
  lemma {:induction false} GroupsLogCover(es: seq<Entry>, order: seq<string>, g: string)
    requires g in order
    ensures forall e :: e in GroupLines(es, |es|, g) ==> e in GroupsLog(es, order)
  {
    var front := order[..|order| - 1];
    var x := GroupsLog(es, front);
    var y := GroupLines(es, |es|, order[|order| - 1]);
    assert GroupsLog(es, order) == x + y;
    SeqGrows(x, y);
    if g != order[|order| - 1] {
      assert g in front;
      GroupsLogCover(es, front, g);
    }
  }

  /** The option lines of a run's log are those of the groups visited, and all of them are there. */
  lemma LogOptionPart(content: seq<seq<string>>, header: seq<string>, m: map<string, string>,
                      log: seq<LogEntry>, order: seq<string>)
    requires Width(content, |header|) && OptionLog(content, header, m, log, order)
    ensures var c := ColumnsOf(header);
      (forall e :: e in log && !e.Synced? ==>
        c.id != -1 && c.sku != -1 && e in GroupsLog(OptionEntries(content, c.id as nat, c.sku as nat), order))
      && (c.id != -1 && c.sku != -1 ==>
        forall e :: e in GroupsLog(OptionEntries(content, c.id as nat, c.sku as nat), order) ==> e in log)
  {
    var c := ColumnsOf(header);
    var synced := SyncPart(content, header, m);
    if c.id != -1 && c.skuProduct != -1 {
      SyncLinesMapped(ProductRefs(content, c.id as nat, c.skuProduct as nat), |content|, m);
    }
    assert forall e :: e in synced ==> e.Synced?;
    if c.id != -1 && c.sku != -1 {
      SeqGrows(synced, GroupsLog(OptionEntries(content, c.id as nat, c.sku as nat), order));
    }
  }

  /**
   * An option line of a run's log reports a data row and the final SKU the
   * option pass gives it, which is the SKU that row has in the output
   * (`OutputOptionSku`).
   */
  lemma LogReportsFinal(content: seq<seq<string>>, header: seq<string>, m: map<string, string>,
                     log: seq<LogEntry>, order: seq<string>, e: LogEntry)
    requires Width(content, |header|) && OptionLog(content, header, m, log, order)
    requires e in log && (e.OptionFilled? || e.OptionRenamed?)
    ensures var c := ColumnsOf(header);
      c.id != -1 && c.sku != -1 && 2 <= e.row < |content| + 2
      && e.sku == FinalAt(OptionEntries(content, c.id as nat, c.sku as nat), e.row - 2)
  {
    var c := ColumnsOf(header);
    LogOptionPart(content, header, m, log, order);
    var es := OptionEntries(content, c.id as nat, c.sku as nat);
    GroupsLogReport(es, order);
    var g :| g in order && ReportsRow(es, g, e);
  }

  /** Every option whose SKU the run changes has its line in the log, under its spreadsheet row. */
  lemma LogCoversChanges(content: seq<seq<string>>, header: seq<string>, m: map<string, string>, parse: Parser,
                         log: seq<LogEntry>, order: seq<string>, i: nat)
    requires Width(content, |header|) && OptionLog(content, header, m, log, order) && i < |content|
    requires ColumnsOf(header).id != -1 && ColumnsOf(header).sku != -1
    requires Output(content, header, m, parse)[i][SkuOut] != Text(content[i][ColumnsOf(header).sku])
    ensures exists e :: e in log && (e.OptionFilled? || e.OptionRenamed?) && e.row == i + 2
  {
    var c := ColumnsOf(header);
    var es := OptionEntries(content, c.id as nat, c.sku as nat);
    var g := es[i].scope.value;
    var lines := RowLines(content, header, m, parse, i);
    assert g in order by {
      assert HasGroup(es, |es|, g);
    }
    GroupLinesCover(es, |es|, g, i, lines[0]);
    GroupsLogCover(es, order, g);
    LogOptionPart(content, header, m, log, order);
    assert lines[0] in log;
  }

  /** A changed option SKU comes from a decision that writes one line. */
  lemma RowLines(content: seq<seq<string>>, header: seq<string>, m: map<string, string>, parse: Parser, i: nat)
    returns (lines: seq<LogEntry>)
    requires Width(content, |header|) && i < |content|
    requires ColumnsOf(header).id != -1 && ColumnsOf(header).sku != -1
    requires Output(content, header, m, parse)[i][SkuOut] != Text(content[i][ColumnsOf(header).sku])
    ensures var c := ColumnsOf(header); var es := OptionEntries(content, c.id as nat, c.sku as nat);
      var g := es[i].scope.value;
      es[i].scope.Some? && lines == OptionLines(i + 2, Decide(ScopeKeys(es, i, g), es[i].sku, es[i].key))
      && |lines| == 1 && (lines[0].OptionFilled? || lines[0].OptionRenamed?) && lines[0].row == i + 2
  {
    var c := ColumnsOf(header);
    var es := OptionEntries(content, c.id as nat, c.sku as nat);
    var g := es[i].scope.value;
    OutputOptionSku(content, header, m, parse, i);
    assert FinalAt(es, i) != es[i].sku;
    lines := ChangedLine(es, i, g);
  }

  /** A row of group `g` whose SKU the rule changes gets exactly one line, a fill or a rename, with its row number. */
  lemma ChangedLine(es: seq<Entry>, i: nat, g: string) returns (lines: seq<LogEntry>)
    requires i < |es| && es[i].scope == Some(g) && es[i].key == Trim(es[i].sku)
    requires FinalAt(es, i) != es[i].sku
    ensures lines == OptionLines(i + 2, Decide(ScopeKeys(es, i, g), es[i].sku, es[i].key))
    ensures |lines| == 1 && (lines[0].OptionFilled? || lines[0].OptionRenamed?) && lines[0].row == i + 2
  {
    ChangedIffNotKept(ScopeKeys(es, i, g), es[i].sku, es[i].key);
    lines := OptionLines(i + 2, Decide(ScopeKeys(es, i, g), es[i].sku, es[i].key));
  }
}
