/** parseData(json): splits each chart record's columns into the timeline
    (the column named by the key whose type is "x") and the named datasets.
    The JSON text is taken as already parsed: `None` stands for text that
    `JSON.parse` rejects or that is not a list, and a `None` entry for a
    `null` chart record, on which reading a field throws. A missing field
    (`undefined`, or any other falsy value) is `None` inside the record. */
module Parser {
  import opened Num

  /** A column: its header `currentColumn[0]` and the rest of it. An empty
      column has no header (`undefined`) and no values. */
  datatype Column = Column(header: Option<string>, values: seq<real>)

  /** An object as the list of its entries, in key order. */
  type Entries = seq<(string, string)>

  datatype RawChart = RawChart(types: Option<Entries>, columns: Option<seq<Column>>,
                               names: Option<Entries>, colors: Option<Entries>)

  datatype ParsedChart = ParsedChart(types: Entries, names: Entries, colors: Entries,
                                     timeline: seq<real>, datasets: map<string, seq<real>>)

  const TimelineType: string := "x"

  /** The property key a header becomes: `undefined` is stored as
      "undefined". */
  function Key(header: Option<string>): string {
    if header.Some? then header.value else "undefined"
  }

  /** `Object.keys(types).find(key => types[key] === 'x')`. */
  function AxisName(types: Entries): (r: Option<string>)
    ensures r.None? <==> forall i :: 0 <= i < |types| ==> types[i].1 != TimelineType
    ensures r.Some? ==> exists i :: (0 <= i < |types| && types[i] == (r.value, TimelineType)
      && forall j :: 0 <= j < i ==> types[j].1 != TimelineType)
  {
    if |types| == 0 then None
    else if types[0].1 == TimelineType then Some(types[0].0)
    else
      var r := AxisName(types[1..]);
      assert forall j :: 1 <= j < |types| ==> types[j] == types[1..][j - 1];
      r
  }

  /** The accumulator of the reduce. */
  datatype Axes = Axes(timeline: seq<real>, datasets: map<string, seq<real>>)

  /** `columns.reduce(...)` from `{ datasets: {}, timeline: [] }`, one column
      at a time from the first. A column whose header equals the axis name
      (two `undefined`s are equal too) replaces the timeline; any other
      column is stored under its header's key, replacing an earlier one. */
  function SplitColumns(columns: seq<Column>, axis: Option<string>): (r: Axes)
    ensures forall k :: k in r.datasets <==>
      exists i :: 0 <= i < |columns| && columns[i].header != axis && Key(columns[i].header) == k
  {
    if |columns| == 0 then Axes([], map[])
    else
      var last := |columns| - 1;
      var memo := SplitColumns(columns[..last], axis);
      assert forall i :: 0 <= i < last ==> columns[..last][i] == columns[i];
      var c := columns[last];
      if c.header == axis then memo.(timeline := c.values)
      else memo.(datasets := memo.datasets[Key(c.header) := c.values])
  }

  /** The timeline is the last column named by the axis, or `[]` when no
      column is. */
  lemma {:induction false} TimelineIsLastAxisColumn(columns: seq<Column>, axis: Option<string>)
    ensures var r := SplitColumns(columns, axis);
      && ((forall i :: 0 <= i < |columns| ==> columns[i].header != axis) ==> r.timeline == [])
      && (forall i :: 0 <= i < |columns| && columns[i].header == axis
            && (forall j :: i < j < |columns| ==> columns[j].header != axis)
            ==> r.timeline == columns[i].values)
  {
    if |columns| > 0 {
      var last := |columns| - 1;
      TimelineIsLastAxisColumn(columns[..last], axis);
      assert forall i :: 0 <= i < last ==> columns[..last][i] == columns[i];
    }
  }

  /** Every dataset holds the values of the last non-axis column with its
      key: a later column of the same name overwrites an earlier one. */
  lemma {:induction false} DatasetIsLastColumn(columns: seq<Column>, axis: Option<string>, i: nat)
    requires i < |columns| && columns[i].header != axis
    requires forall j :: i < j < |columns| && columns[j].header != axis ==> Key(columns[j].header) != Key(columns[i].header)
    ensures SplitColumns(columns, axis).datasets[Key(columns[i].header)] == columns[i].values
  {
    var last := |columns| - 1;
    var prefix := columns[..last];
    if i < last {
      forall j | i < j < |prefix| && prefix[j].header != axis
        ensures Key(prefix[j].header) != Key(prefix[i].header)
      {
        assert prefix[j] == columns[j] && prefix[i] == columns[i];
      }
      DatasetIsLastColumn(prefix, axis, i);
      assert prefix[i] == columns[i];
    }
  }

  /** One chart record: defaults for the missing fields, then the split. */
  function ParseChart(raw: RawChart): (r: ParsedChart)
    ensures r.types == (if raw.types.Some? then raw.types.value else [])
    ensures r.names == (if raw.names.Some? then raw.names.value else [])
    ensures r.colors == (if raw.colors.Some? then raw.colors.value else [])
    ensures raw.columns.None? ==> r.timeline == [] && r.datasets == map[]
  {
    var types := if raw.types.Some? then raw.types.value else [];
    var columns := if raw.columns.Some? then raw.columns.value else [];
    var names := if raw.names.Some? then raw.names.value else [];
    var colors := if raw.colors.Some? then raw.colors.value else [];
    var axes := SplitColumns(columns, AxisName(types));
    ParsedChart(types, names, colors, axes.timeline, axes.datasets)
  }

  /** parseData: `[]` when parsing throws, otherwise one parsed record per
      chart record, in order. */
  function ParseData(input: Option<seq<Option<RawChart>>>): (r: seq<ParsedChart>)
    ensures input.None? ==> r == []
    ensures input.Some? && (exists i :: 0 <= i < |input.value| && input.value[i].None?) ==> r == []
    ensures input.Some? && (forall i :: 0 <= i < |input.value| ==> input.value[i].Some?) ==>
      |r| == |input.value| && forall i :: 0 <= i < |r| ==> r[i] == ParseChart(input.value[i].value)
  {
    if input.None? then []
    else if exists i :: 0 <= i < |input.value| && input.value[i].None? then []
    else seq(|input.value|, i requires 0 <= i < |input.value| => ParseChart(input.value[i].value))
  }

  /** A chart whose "x"-typed key names one of its columns gets that
      column as its timeline and keeps every other column as a dataset. */
  lemma StandardChart(types: Entries, xName: string, values: seq<real>, yName: string, ys: seq<real>)
    requires |types| > 0 && types[0] == (xName, TimelineType) && xName != yName
    ensures var r := ParseChart(RawChart(Some(types), Some([Column(Some(xName), values), Column(Some(yName), ys)]), None, None));
      && r.timeline == values
      && r.datasets == map[yName := ys]
  {
    var cols := [Column(Some(xName), values), Column(Some(yName), ys)];
    assert cols[..1] == [cols[0]];
    assert [cols[0]][..0] == [];
    assert AxisName(types) == Some(xName);
    TimelineIsLastAxisColumn(cols, Some(xName));
  }
}
