/** A pandas DataFrame as stages 2 and 3 use it: ordered column labels, and for each
    label a column of cells, all columns of the same height. Cells hold what the CSV
    files hold here, integers or strings. Assigning a column changes the frame in
    place, which the caller of `assign_shortlinks` and `send_messages` can observe. */
module Frames {

  datatype Value = Int(i: int) | Str(s: string)

  /** The column labels after `df[name] = ...`: an existing label stays where it is,
      a new one goes at the end. */
  function WithColumn(columns: seq<string>, name: string): (r: seq<string>)
    ensures name in r
    ensures forall c :: c in r <==> c in columns || c == name
    ensures |columns| <= |r| && r[..|columns|] == columns
  {
    if name in columns then columns else columns + [name]
  }

  class Table {
    var columns: seq<string>
    var cells: map<string, seq<Value>>
    var height: nat

    ghost predicate Valid()
      reads this
    {
      && (forall i, j :: 0 <= i < j < |columns| ==> columns[i] != columns[j])
      && (forall c :: c in cells <==> c in columns)
      && (forall c :: c in cells ==> |cells[c]| == height)
    }

    constructor (columns: seq<string>, cells: map<string, seq<Value>>, height: nat)
      requires forall i, j :: 0 <= i < j < |columns| ==> columns[i] != columns[j]
      requires forall c :: c in cells <==> c in columns
      requires forall c :: c in cells ==> |cells[c]| == height
      ensures Valid()
      ensures this.columns == columns && this.cells == cells && this.height == height
    {
      this.columns := columns;
      this.cells := cells;
      this.height := height;
    }

    /** `df[name] = values`: the column is replaced in place, or added as the last one;
        every other column is untouched. */
    method SetColumn(name: string, values: seq<Value>)
      requires Valid() && |values| == height
      modifies this
      ensures Valid() && height == old(height)
      ensures columns == WithColumn(old(columns), name)
      ensures cells == old(cells)[name := values]
    {
      if name !in columns {
        columns := columns + [name];
      }
      cells := cells[name := values];
    }

    /** `df[names]`: a new frame holding exactly these columns, in this order, with
        the same rows; this frame is left as it is. */
    method Select(names: seq<string>) returns (t: Table)
      requires Valid()
      requires forall i, j :: 0 <= i < j < |names| ==> names[i] != names[j]
      requires forall n :: n in names ==> n in cells
      ensures fresh(t) && t.Valid()
      ensures t.columns == names && t.height == height
      ensures forall n :: n in names ==> n in t.cells && t.cells[n] == cells[n]
    {
      var picked := map n | n in names :: cells[n];
      t := new Table(names, picked, height);
    }
  }
}
