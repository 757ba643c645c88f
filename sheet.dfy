/**
 * Cells, log entries and the cell tests shared by the product normaliser and
 * the option reconciler.
 */
module Sheet {
  import opened Wrappers
  import opened Text

  /**
   * A cell of a working row. Cells read from the spreadsheet are text; the
   * engine writes JavaScript numbers into the price and quantity cells and
   * appends the spreadsheet row number to each option row.
   */
  datatype Cell = Text(s: string) | Number(v: real)

  /** `parseFloat`, which the engine receives from its JavaScript runtime; `None` is `NaN`. */
  type Parser = string -> Option<real>

  /** One line of a processing log (the Spanish wording of each line is not modelled). */
  datatype LogEntry =
    | MissingColumns(columns: seq<string>)
    | Omitted(row: nat)
    | Filled(row: nat, id: string, sku: string)
    | Renamed(row: nat, id: string, original: string, sku: string)
    | Synced(id: string, sku: string)
    | OptionFilled(row: nat, sku: string)
    | OptionRenamed(row: nat, original: string, sku: string)

  /** `val !== null && val !== undefined && String(val).trim() !== ''`. */
  predicate HasValue(c: Cell) {
    match c
    case Text(s) => Trim(s) != ""
    case Number(_) => true
  }

  /** The row filter of both components: some cell is not blank. */
  predicate NonBlank(row: seq<Cell>) {
    exists j :: 0 <= j < |row| && HasValue(row[j])
  }

  /** The same test over a row read from the spreadsheet. */
  predicate NonBlankText(row: seq<string>) {
    exists j :: 0 <= j < |row| && Trim(row[j]) != ""
  }

  /** `s.filter(keep)`: the elements `keep` accepts. */
  function Filter<T(!new)>(s: seq<T>, keep: T -> bool): (r: seq<T>)
    ensures |r| <= |s|
    ensures forall x :: x in r <==> x in s && keep(x)
  {
    if s == [] then []
    else
      var rest := Filter(s[1..], keep);
      assert forall x :: x in s <==> x == s[0] || x in s[1..];
      if keep(s[0]) then [s[0]] + rest else rest
  }

  /** Every position moved one place on. */
  function Shift(ps: seq<nat>): (r: seq<nat>)
    ensures |r| == |ps| && forall t :: 0 <= t < |ps| ==> r[t] == ps[t] + 1
  {
    seq(|ps|, t requires 0 <= t < |ps| => ps[t] + 1)
  }

  /** The positions of the elements of `s` that `keep` accepts, from first to last. */
  ghost function Kept<T>(s: seq<T>, keep: T -> bool): seq<nat> {
    if s == [] then []
    else (if keep(s[0]) then [0] else []) + Shift(Kept(s[1..], keep))
  }

  /**
   * `r` lists the elements of `s` at the positions `ps`, which increase
   * strictly and are exactly the positions whose element `keep` accepts:
   * `r` is `s` with the rejected elements left out, in order, repeats kept.
   */
  ghost predicate Picked<T>(s: seq<T>, r: seq<T>, ps: seq<nat>, keep: T -> bool) {
    |ps| == |r|
    && (forall t :: 0 <= t < |ps| ==> ps[t] < |s| && r[t] == s[ps[t]])
    && (forall t, u :: 0 <= t < u < |ps| ==> ps[t] < ps[u])
    && (forall j :: 0 <= j < |s| ==> (j in ps <==> keep(s[j])))
  }

  /** A position is in the shifted list exactly when the one before it is in the list. */
  lemma InShift(ps: seq<nat>, j: nat)
    requires j > 0
    ensures j in Shift(ps) <==> j - 1 in ps
  {
    if j - 1 in ps {
      var t :| 0 <= t < |ps| && ps[t] == j - 1;
      assert Shift(ps)[t] == j;
    }
  }

  /** The kept positions lie inside `s`, increase strictly, and are those whose element is accepted. */
  lemma {:induction false} KeptPositions<T>(s: seq<T>, keep: T -> bool)
    ensures var ps := Kept(s, keep);
      (forall t :: 0 <= t < |ps| ==> ps[t] < |s|)
      && (forall t, u :: 0 <= t < u < |ps| ==> ps[t] < ps[u])
      && (forall j :: 0 <= j < |s| ==> (j in ps <==> keep(s[j])))
  {
    if s != [] {
      KeptPositions(s[1..], keep);
      var shifted := Shift(Kept(s[1..], keep));
      assert 0 !in shifted;
      forall j | 0 < j < |s|
        ensures j in Kept(s, keep) <==> keep(s[j])
      {
        InShift(Kept(s[1..], keep), j);
        assert s[j] == s[1..][j - 1];
      }
    }
  }

  /** The filter's t-th element is the element at the t-th kept position. */
  lemma {:induction false} FilterAtKept<T(!new)>(s: seq<T>, keep: T -> bool)
    ensures |Kept(s, keep)| == |Filter(s, keep)|
    ensures forall t :: 0 <= t < |Kept(s, keep)| ==> Kept(s, keep)[t] < |s| && Filter(s, keep)[t] == s[Kept(s, keep)[t]]
  {
    if s != [] {
      var tail := s[1..];
      FilterAtKept(tail, keep);
      var shifted := Shift(Kept(tail, keep));
      var rest := Filter(tail, keep);
      var head: seq<nat> := if keep(s[0]) then [0] else [];
      var front: seq<T> := if keep(s[0]) then [s[0]] else [];
      assert Kept(s, keep) == head + shifted;
      assert Filter(s, keep) == front + rest;
      ShiftedAt(s, Kept(tail, keep), rest, head, front);
    }
  }

  /**
   * The induction step of `FilterAtKept`: when `rest` sits at the positions
   * `ps` of `s[1..]`, prepending the head (or nothing) to both keeps them in step.
   */
  lemma ShiftedAt<T>(s: seq<T>, ps: seq<nat>, rest: seq<T>, head: seq<nat>, front: seq<T>)
    requires s != [] && |ps| == |rest|
    requires forall t :: 0 <= t < |ps| ==> ps[t] < |s| - 1 && rest[t] == s[1..][ps[t]]
    requires (head == [0] && front == [s[0]]) || (head == [] && front == [])
    ensures |head + Shift(ps)| == |front + rest|
    ensures forall t :: 0 <= t < |head + Shift(ps)| ==>
      (head + Shift(ps))[t] < |s| && (front + rest)[t] == s[(head + Shift(ps))[t]]
  {
    var h := |head|;
    forall t | 0 <= t < |head + Shift(ps)|
      ensures (head + Shift(ps))[t] < |s| && (front + rest)[t] == s[(head + Shift(ps))[t]]
    {
      if t >= h {
        assert (head + Shift(ps))[t] == ps[t - h] + 1;
        assert (front + rest)[t] == rest[t - h];
      }
    }
  }

  /** The filter keeps the accepted elements in their order, and nothing else. */
  lemma FilterInOrder<T(!new)>(s: seq<T>, keep: T -> bool)
    ensures Picked(s, Filter(s, keep), Kept(s, keep), keep)
  {
    KeptPositions(s, keep);
    FilterAtKept(s, keep);
  }

  /** A filter that accepts every element keeps the sequence as it is. */
  lemma {:induction false} FilterAll<T(!new)>(s: seq<T>, keep: T -> bool)
    requires forall i :: 0 <= i < |s| ==> keep(s[i])
    ensures Filter(s, keep) == s
  {
    if s != [] {
      FilterAll(s[1..], keep);
    }
  }

  /** `rows.filter(row => row.some(...))` for rows read from the spreadsheet: the non-blank rows, in order. */
  function NonBlankRows(rows: seq<seq<string>>): (r: seq<seq<string>>)
    ensures |r| <= |rows|
    ensures forall x :: x in r <==> x in rows && NonBlankText(x)
    ensures Picked(rows, r, Kept(rows, NonBlankText), NonBlankText)
  {
    FilterInOrder(rows, NonBlankText);
    Filter(rows, NonBlankText)
  }

  /** `names.map(n => header.indexOf(n))`: the position of each name in the header, -1 when absent. */
  function IndicesOf(names: seq<string>, header: seq<string>): (r: seq<int>)
    ensures |r| == |names|
    ensures forall k :: 0 <= k < |names| ==> -1 <= r[k] < |header|
    ensures forall k :: 0 <= k < |names| ==> (r[k] == -1 <==> names[k] !in header)
    ensures forall k :: 0 <= k < |names| ==> r[k] == IndexOf(header, names[k])
  {
    seq(|names|, k requires 0 <= k < |names| => IndexOf(header, names[k]))
  }

  /** `header.map(h => String(h || '').trim())`. */
  function TrimRow(row: seq<string>): (r: seq<string>)
    ensures |r| == |row| && forall j :: 0 <= j < |row| ==> r[j] == Trim(row[j])
  {
    seq(|row|, j requires 0 <= j < |row| => Trim(row[j]))
  }

  function TextRow(row: seq<string>): (r: seq<Cell>)
    ensures |r| == |row| && forall j :: 0 <= j < |row| ==> r[j] == Text(row[j])
  {
    seq(|row|, j requires 0 <= j < |row| => Text(row[j]))
  }

  /** `parseFloat(String(c))`: a number reads as itself. */
  function ParseCell(parse: Parser, c: Cell): Option<real> {
    match c
    case Text(s) => parse(s)
    case Number(v) => Some(v)
  }

  /** `isNaN(n) || n < 0 ? 0 : n` applied to `n = parseFloat(c)`. */
  function Coerce(parse: Parser, c: Cell): (r: real)
    ensures r >= 0.0
    ensures ParseCell(parse, c).Some? && ParseCell(parse, c).value >= 0.0 ==> r == ParseCell(parse, c).value
    ensures ParseCell(parse, c).None? || ParseCell(parse, c).value < 0.0 ==> r == 0.0
  {
    match ParseCell(parse, c)
    case None => 0.0
    case Some(n) => if n < 0.0 then 0.0 else n
  }
}
