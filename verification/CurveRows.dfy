/**
 The point table of a curve response: `points` rows of `width` bytes, sent raw
 row by row, or compressed column by column, and cut into fields per row.
 */
module CurveRows {
  import opened Wrappers
  import opened Bytes
  import Gov = GovCodec
  import GovDecoder

  // ------------------------------------------------------------- table layout

  /** The position of column `column` of row `row` in a table of `width` columns. */
  function At(row: nat, width: nat, column: nat): nat {
    row * width + column
  }

  lemma AtIsInside(row: nat, rows: nat, width: nat, column: nat)
    requires row < rows && column < width
    ensures At(row, width, column) < rows * width
  {
    assert row * width + width == (row + 1) * width;
    Monotone(row + 1, rows, width);
  }

  lemma Monotone(a: nat, b: nat, width: nat)
    requires a <= b
    ensures a * width <= b * width
  {
    assert b * width == a * width + (b - a) * width;
  }

  lemma AtIsInjective(row: nat, column: nat, row': nat, column': nat, width: nat)
    requires column < width && column' < width && At(row, width, column) == At(row', width, column')
    ensures row == row' && column == column'
  {
    if row < row' {
      AtIsInside(row, row', width, column);
    } else if row' < row {
      AtIsInside(row', row, width, column');
    }
  }

  lemma PositiveFactor(a: nat, b: nat)
    requires a * b > 0
    ensures b > 0
  {
  }

  /** Every position is the position of one row and column. */
  lemma AtIsOnto(i: nat, rows: nat, width: nat) returns (row: nat, column: nat)
    requires i < rows * width
    ensures row < rows && column < width && At(row, width, column) == i
  {
    PositiveFactor(rows, width);
    row, column := i / width, i % width;
    assert i == row * width + column;
    if row >= rows {
      Monotone(rows, row, width);
    }
  }

  /** `rows` and `columns` are the same table, row by row and column by column. */
  ghost predicate SameTable(rows: seq<byte>, columns: seq<byte>, points: nat, width: nat) {
    && |rows| == points * width && |columns| == points * width
    && forall row: nat, column: nat :: row < points && column < width ==>
         At(row, width, column) < |rows| && At(column, points, row) < |columns|
         && rows[At(row, width, column)] == columns[At(column, points, row)]
  }

  /** The column-major bytes determine the row-major bytes, and the other way round. */
  lemma TableIsUnique(rows: seq<byte>, rows': seq<byte>, columns: seq<byte>, columns': seq<byte>, points: nat, width: nat)
    requires SameTable(rows, columns, points, width) && SameTable(rows', columns', points, width)
    ensures rows == rows' <==> columns == columns'
  {
    if columns == columns' {
      forall i | 0 <= i < |rows| ensures rows[i] == rows'[i] {
        var row, column := AtIsOnto(i, points, width);
      }
    }
    if rows == rows' {
      assert points * width == width * points;
      forall i | 0 <= i < |columns| ensures columns[i] == columns'[i] {
        var column, row := AtIsOnto(i, width, points);
        assert rows[At(row, width, column)] == columns[At(column, points, row)];
        assert rows'[At(row, width, column)] == columns'[At(column, points, row)];
      }
    }
  }

  /** The first `count` cells of a column are in place. */
  ghost predicate ColumnDone(rows: seq<byte>, columns: seq<byte>, points: nat, width: nat, column: nat, count: nat)
    requires |rows| == |columns| == points * width && column < width && count <= points
  {
    forall row: nat :: row < count ==>
      At(row, width, column) < |rows| && At(column, points, row) < |columns|
      && rows[At(row, width, column)] == columns[At(column, points, row)]
  }

  /** Only cells of `column` differ. */
  ghost predicate OthersKept(rows: seq<byte>, rows': seq<byte>, points: nat, width: nat, column: nat)
    requires |rows| == |rows'| == points * width
  {
    forall row: nat, c: nat :: row < points && c < width && c != column ==>
      At(row, width, c) < |rows| && rows'[At(row, width, c)] == rows[At(row, width, c)]
  }

  lemma WriteOneCell(rows: seq<byte>, columns: seq<byte>, points: nat, width: nat, column: nat, row: nat)
    requires |rows| == |columns| == points * width && column < width && row < points
    requires ColumnDone(rows, columns, points, width, column, row)
    ensures At(row, width, column) < |rows| && At(column, points, row) < |columns|
    ensures var rows' := rows[At(row, width, column) := columns[At(column, points, row)]];
            && ColumnDone(rows', columns, points, width, column, row + 1)
            && OthersKept(rows, rows', points, width, column)
  {
    hide At;
    AtIsInside(row, points, width, column);
    AtIsInside(column, width, points, row);
    assert width * points == points * width;
    forall r: nat, c: nat | r < points && c < width && (r != row || c != column)
      ensures At(r, width, c) < |rows| && At(r, width, c) != At(row, width, column)
    {
      AtIsInside(r, points, width, c);
      if At(r, width, c) == At(row, width, column) {
        AtIsInjective(r, c, row, column, width);
      }
    }
  }

  /** The inner loop of `decode_data`: writes the cells of one column and nothing else. */
  method FillColumn(rows: array<byte>, columns: seq<byte>, points: nat, width: nat, column: nat)
    requires rows.Length == |columns| == points * width && column < width
    modifies rows
    ensures ColumnDone(rows[..], columns, points, width, column, points)
    ensures OthersKept(old(rows[..]), rows[..], points, width, column)
  {
    hide At;
    forall r: nat, c: nat | r < points && c < width ensures At(r, width, c) < rows.Length {
      AtIsInside(r, points, width, c);
    }
    for row := 0 to points
      invariant ColumnDone(rows[..], columns, points, width, column, row)
      invariant OthersKept(old(rows[..]), rows[..], points, width, column)
    {
      WriteOneCell(rows[..], columns, points, width, column, row);
      ghost var before := rows[..];
      rows[At(row, width, column)] := columns[At(column, points, row)];
      assert rows[..] == before[At(row, width, column) := columns[At(column, points, row)]];
    }
  }

  lemma OtherColumnStaysDone(rows: seq<byte>, rows': seq<byte>, columns: seq<byte>, points: nat, width: nat, column: nat, c: nat)
    requires |rows| == |rows'| == |columns| == points * width && c < width && column < width && c != column
    requires OthersKept(rows, rows', points, width, column) && ColumnDone(rows, columns, points, width, c, points)
    ensures ColumnDone(rows', columns, points, width, c, points)
  {
    hide At;
    forall row: nat | row < points
      ensures At(row, width, c) < |rows'| && rows'[At(row, width, c)] == rows[At(row, width, c)]
    {
    }
  }

  lemma AllColumnsDone(rows: seq<byte>, columns: seq<byte>, points: nat, width: nat)
    requires |rows| == |columns| == points * width
    requires forall c: nat :: c < width ==> ColumnDone(rows, columns, points, width, c, points)
    ensures SameTable(rows, columns, points, width)
  {
    hide At;
    forall row: nat, column: nat | row < points && column < width
      ensures At(row, width, column) < |rows| && At(column, points, row) < |columns|
      ensures rows[At(row, width, column)] == columns[At(column, points, row)]
    {
      assert ColumnDone(rows, columns, points, width, column, points);
    }
  }

  /** The outer loop of `decode_data`. */
  method Transpose(columns: seq<byte>, points: nat, width: nat) returns (rows: array<byte>)
    requires |columns| == points * width
    ensures fresh(rows) && SameTable(rows[..], columns, points, width)
  {
    hide At, ColumnDone, OthersKept, SameTable;
    rows := new byte[points * width](_ => 0);
    for column := 0 to width
      invariant forall c: nat :: c < column ==> ColumnDone(rows[..], columns, points, width, c, points)
    {
      ghost var before := rows[..];
      FillColumn(rows, columns, points, width, column);
      forall c: nat | c < column ensures ColumnDone(rows[..], columns, points, width, c, points) {
        OtherColumnStaysDone(before, rows[..], columns, points, width, column, c);
      }
    }
    AllColumnsDone(rows[..], columns, points, width);
  }

  // -------------------------------------------------------- the data segment

  /** The bytes `decode_data` reads as compressed: two lengths, then the compressed columns. */
  predicate CompressedHeader(segment: seq<byte>, size: nat) {
    && |segment| >= 8
    && BigEndian(segment[4..8]) == size
    && LittleEndian(segment[..4]) in {|segment| - 8, |segment| - 4}
  }

  /** What the rows of a segment are: the segment itself if it has the raw size, else the decompressed table. */
  ghost predicate IsRows(segment: seq<byte>, points: nat, width: nat, rows: seq<byte>) {
    var size := points * width;
    if |segment| == size then rows == segment
    else
      && CompressedHeader(segment, size)
      && var columns := Gov.DecodeGov(segment[8..], size);
      columns.Ok? && SameTable(rows, columns.value, points, width)
  }

  /** decode_data */
  method DecodeData(segment: seq<byte>, points: nat, width: nat) returns (r: Result<seq<byte>, ErrorCode>)
    ensures r.Ok? ==> |r.value| == points * width && IsRows(segment, points, width, r.value)
    ensures r.Err? ==> r.error == ResponseInvalid && forall rows :: !IsRows(segment, points, width, rows)
  {
    hide BigEndian, LittleEndian, SameTable, Gov.DecodeGov;
    var size := points * width;
    if |segment| == size {
      return Ok(segment);
    }
    if !CompressedHeader(segment, size) {
      return Err(ResponseInvalid);
    }
    Gov.DecodeGovLength(segment[8..], size);
    var columns := GovDecoder.DecodeCoreGov(segment[8..], size);
    if columns.Err? {
      return Err(ResponseInvalid);
    }
    var rows := Transpose(columns.value, points, width);
    SameTableLength(rows[..], columns.value, points, width);
    return Ok(rows[..]);
  }

  lemma SameTableLength(rows: seq<byte>, columns: seq<byte>, points: nat, width: nat)
    requires SameTable(rows, columns, points, width)
    ensures |rows| == points * width
  {
  }

  /** A compressed segment of the table `rows`. */
  ghost predicate Compresses(segment: seq<byte>, points: nat, width: nat, rows: seq<byte>, columns: seq<byte>) {
    && CompressedHeader(segment, points * width)
    && Gov.DecodeGov(segment[8..], points * width) == Ok(columns)
    && SameTable(rows, columns, points, width)
  }

  /**
   The column-major form of a table decodes to the rows of its raw form exactly
   when its length differs from the raw size, or when it happens to be the raw form.
   */
  lemma CompressedFormAgrees(segment: seq<byte>, points: nat, width: nat, rows: seq<byte>, columns: seq<byte>)
    requires Compresses(segment, points, width, rows, columns)
    ensures IsRows(rows, points, width, rows)
    ensures IsRows(segment, points, width, rows) <==> |segment| != points * width || segment == rows
    ensures |segment| != points * width ==> forall other :: IsRows(segment, points, width, other) <==> other == rows
  {
    hide CompressedHeader, Gov.DecodeGov, At;
    if |segment| != points * width {
      forall other | IsRows(segment, points, width, other) ensures other == rows {
        TableIsUnique(rows, other, columns, columns, points, width);
      }
    }
  }

  // ------------------------------------------------------------------- fields

  /** `kind` is the type nibble: 1 for HXLONG, 2 for a signed word, 3 for a signed half word. */
  datatype Descriptor = Descriptor(id: nat, kind: nat, width: nat)

  /** type_word & 0x8FFF, type_word & 0x7000 and the width of the descriptor at `body[at..at + 4]`. */
  function ReadDescriptor(body: seq<byte>, at: nat): Descriptor
    requires at + 4 <= |body|
  {
    var typeWord := LittleEndian(body[at..at + 2]);
    Descriptor(typeWord / 0x8000 * 0x8000 + typeWord % 0x1000, typeWord / 0x1000 % 8, body[at + 2])
  }

  predicate SupportedField(d: Descriptor) {
    (d.kind == 1 || d.kind == 2 || d.kind == 3) && d.width == if d.kind == 3 then 2 else 4
  }

  /** The sum of the widths of the first `count` fields. */
  function Offset(ds: seq<Descriptor>, count: nat): nat
    requires count <= |ds|
  {
    if count == 0 then 0 else Offset(ds, count - 1) + ds[count - 1].width
  }

  ghost predicate DistinctIds(ds: seq<Descriptor>) {
    forall i, j :: 0 <= i < j < |ds| ==> ds[i].id != ds[j].id
  }

  ghost predicate Described(body: seq<byte>, count: nat, ds: seq<Descriptor>)
    requires 24 + 4 * count <= |body|
  {
    |ds| == count && forall i :: 0 <= i < count ==> ds[i] == ReadDescriptor(body, 24 + 4 * i)
  }

  /** The descriptors of a curve header, if they are supported, have distinct ids and fill a row. */
  method ReadDescriptors(body: seq<byte>, count: nat, rowWidth: nat) returns (r: Result<seq<Descriptor>, ErrorCode>)
    requires 24 + 4 * count <= |body|
    ensures r.Ok? ==>
              Described(body, count, r.value) && DistinctIds(r.value) && Offset(r.value, count) == rowWidth
              && forall d <- r.value :: SupportedField(d)
    ensures r.Err? ==> r.error == ResponseInvalid && forall ds | Described(body, count, ds) ::
              !(DistinctIds(ds) && Offset(ds, count) == rowWidth && forall d <- ds :: SupportedField(d))
  {
    var ds: seq<Descriptor> := [];
    var seen: set<nat> := {};
    var expected: nat := 0;
    for i := 0 to count
      invariant Described(body, i, ds) && DistinctIds(ds) && expected == Offset(ds, i)
      invariant seen == set d | d in ds :: d.id
      invariant forall d <- ds :: SupportedField(d)
    {
      var d := ReadDescriptor(body, 24 + 4 * i);
      if d.id in seen || !SupportedField(d) {
        forall other | Described(body, count, other)
          ensures !(DistinctIds(other) && forall d <- other :: SupportedField(d))
        {
          assert other[i] == d && d in other;
          if d.id in seen {
            var j :| 0 <= j < i && ds[j].id == d.id;
            assert other[j] == ds[j];
          }
        }
        return Err(ResponseInvalid);
      }
      seen := seen + {d.id};
      OffsetOfPrefix(ds, [d], i);
      ds := ds + [d];
      expected := expected + d.width;
    }
    if expected != rowWidth {
      forall other | Described(body, count, other) ensures other == ds {
      }
      return Err(ResponseInvalid);
    }
    return Ok(ds);
  }

  lemma {:induction false} OffsetOfPrefix(ds: seq<Descriptor>, more: seq<Descriptor>, count: nat)
    requires count <= |ds|
    ensures Offset(ds + more, count) == Offset(ds, count)
    decreases count
  {
    if count > 0 {
      OffsetOfPrefix(ds, more, count - 1);
    }
  }

  lemma {:induction false} OffsetGrows(ds: seq<Descriptor>, low: nat, high: nat)
    requires low <= high <= |ds|
    ensures Offset(ds, low) <= Offset(ds, high)
    decreases high - low
  {
    if low < high {
      OffsetGrows(ds, low, high - 1);
    }
  }

  predicate InField(ds: seq<Descriptor>, k: nat, column: nat)
    requires k < |ds|
  {
    Offset(ds, k) <= column < Offset(ds, k) + ds[k].width
  }

  lemma {:induction false} SomeFieldHolds(ds: seq<Descriptor>, count: nat, column: nat) returns (k: nat)
    requires count <= |ds| && column < Offset(ds, count)
    ensures k < count && InField(ds, k, column)
    decreases count
  {
    if column < Offset(ds, count - 1) {
      k := SomeFieldHolds(ds, count - 1, column);
    } else {
      k := count - 1;
    }
  }

  /** Every byte of a row belongs to exactly one field: fields neither overlap nor leave gaps. */
  lemma FieldsPartitionTheRow(ds: seq<Descriptor>, column: nat)
    requires column < Offset(ds, |ds|)
    ensures exists k :: 0 <= k < |ds| && InField(ds, k, column)
                        && forall j :: 0 <= j < |ds| && InField(ds, j, column) ==> j == k
  {
    var k := SomeFieldHolds(ds, |ds|, column);
    forall j | 0 <= j < |ds| && InField(ds, j, column) ensures j == k {
      if j < k {
        OffsetGrows(ds, j + 1, k);
      } else if k < j {
        OffsetGrows(ds, k + 1, j);
      }
    }
  }

  lemma FieldStaysInItsRow(ds: seq<Descriptor>, k: nat, row: nat, points: nat)
    requires k < |ds| && row < points
    ensures var width := Offset(ds, |ds|);
            At(row, width, Offset(ds, k)) + ds[k].width <= (row + 1) * width <= points * width
  {
    OffsetGrows(ds, k + 1, |ds|);
    var width := Offset(ds, |ds|);
    assert (row + 1) * width == row * width + width;
    Monotone(row + 1, points, width);
  }

  function Signed(value: int, width: nat): int {
    if value >= Power256(width) / 2 then value - Power256(width) else value
  }

  /** int.from_bytes(raw, "little", signed=...): the scaling of HXLONG words is not part of this model. */
  function FieldValue(d: Descriptor, raw: seq<byte>): int {
    if d.kind == 1 then LittleEndian(raw) else Signed(LittleEndian(raw), d.width)
  }

  function Field(rows: seq<byte>, points: nat, ds: seq<Descriptor>, k: nat, row: nat): int
    requires |rows| == points * Offset(ds, |ds|) && k < |ds| && row < points
  {
    FieldStaysInItsRow(ds, k, row, points);
    var offset := At(row, Offset(ds, |ds|), Offset(ds, k));
    FieldValue(ds[k], rows[offset..offset + ds[k].width])
  }

  ghost predicate ColumnOf(column: seq<int>, rows: seq<byte>, points: nat, ds: seq<Descriptor>, k: nat) {
    && |rows| == points * Offset(ds, |ds|) && k < |ds|
    && |column| == points
    && forall row :: 0 <= row < points ==> column[row] == Field(rows, points, ds, k, row)
  }

  /** One column per field, keyed by the field's id. */
  ghost predicate TableOf(data: map<nat, seq<int>>, rows: seq<byte>, points: nat, ds: seq<Descriptor>) {
    && data.Keys == (set k | 0 <= k < |ds| :: ds[k].id)
    && forall k :: 0 <= k < |ds| ==> ds[k].id in data && ColumnOf(data[ds[k].id], rows, points, ds, k)
  }

  /** The inner loop over the rows of one field. */
  method DecodeField(rows: seq<byte>, points: nat, ds: seq<Descriptor>, rowWidth: nat, k: nat, fieldOffset: nat) returns (column: seq<int>)
    requires rowWidth == Offset(ds, |ds|) && |rows| == points * rowWidth && k < |ds| && fieldOffset == Offset(ds, k)
    ensures ColumnOf(column, rows, points, ds, k)
  {
    column := [];
    for row := 0 to points
      invariant |column| == row
      invariant forall r :: 0 <= r < row ==> column[r] == Field(rows, points, ds, k, r)
    {
      FieldStaysInItsRow(ds, k, row, points);
      var offset := row * rowWidth + fieldOffset;
      assert offset == At(row, rowWidth, fieldOffset);
      column := column + [FieldValue(ds[k], rows[offset..offset + ds[k].width])];
    }
  }

  lemma OffsetSteps(ds: seq<Descriptor>)
    ensures Offset(ds, 0) == 0
    ensures forall k :: 0 <= k < |ds| ==> Offset(ds, k + 1) == Offset(ds, k) + ds[k].width
  {
  }

  /** The loop over the fields, with a running field offset. */
  method DecodeFields(rows: seq<byte>, points: nat, ds: seq<Descriptor>, rowWidth: nat) returns (data: map<nat, seq<int>>)
    requires DistinctIds(ds) && rowWidth == Offset(ds, |ds|) && |rows| == points * rowWidth
    ensures TableOf(data, rows, points, ds)
  {
    hide ColumnOf, Offset;
    OffsetSteps(ds);
    data := map[];
    var fieldOffset: nat := 0;
    for k := 0 to |ds|
      invariant fieldOffset == Offset(ds, k)
      invariant data.Keys == set j | 0 <= j < k :: ds[j].id
      invariant forall j :: 0 <= j < k ==> ds[j].id in data && ColumnOf(data[ds[j].id], rows, points, ds, j)
    {
      var column := DecodeField(rows, points, ds, rowWidth, k, fieldOffset);
      data := data[ds[k].id := column];
      fieldOffset := fieldOffset + ds[k].width;
    }
  }

  /** Decoding a whole data segment: the raw form and the compressed form of a table give the same columns. */
  method DecodeTable(segment: seq<byte>, points: nat, ds: seq<Descriptor>) returns (r: Result<map<nat, seq<int>>, ErrorCode>)
    requires DistinctIds(ds)
    ensures forall rows: seq<byte>, columns: seq<byte> | Compresses(segment, points, Offset(ds, |ds|), rows, columns)
                                                         && |segment| != points * Offset(ds, |ds|) ::
              r.Ok? && TableOf(r.value, rows, points, ds)
    ensures |segment| == points * Offset(ds, |ds|) ==> r.Ok? && TableOf(r.value, segment, points, ds)
    ensures r.Err? ==> r.error == ResponseInvalid && forall rows :: !IsRows(segment, points, Offset(ds, |ds|), rows)
  {
    hide IsRows, Compresses, TableOf, Offset;
    var rowWidth := Offset(ds, |ds|);
    forall rows: seq<byte>, columns: seq<byte> | Compresses(segment, points, rowWidth, rows, columns) && |segment| != points * rowWidth
      ensures IsRows(segment, points, rowWidth, rows)
      ensures forall other :: IsRows(segment, points, rowWidth, other) ==> other == rows
    {
      CompressedFormAgrees(segment, points, rowWidth, rows, columns);
    }
    RawFormIsItsRows(segment, points, rowWidth);
    var rows :- DecodeData(segment, points, rowWidth);
    var data := DecodeFields(rows, points, ds, rowWidth);
    return Ok(data);
  }

  lemma RawFormIsItsRows(segment: seq<byte>, points: nat, width: nat)
    ensures |segment| == points * width ==>
              IsRows(segment, points, width, segment) && forall rows :: IsRows(segment, points, width, rows) ==> rows == segment
  {
  }

  // ------------------------------------------------------------ in plain bytes

  lemma {:induction false} LittleEndianSteps(s: seq<byte>, k: nat)
    requires k < |s|
    ensures LittleEndian(s[k..]) == s[k] + 256 * LittleEndian(s[k + 1..]) && LittleEndian(s[|s|..]) == 0
  {
    assert s[k..][1..] == s[k + 1..];
  }

  lemma HalfWord(s: seq<byte>)
    requires |s| == 2
    ensures LittleEndian(s) == s[0] + 256 * (s[1] as int)
  {
    LittleEndianSteps(s, 0);
    LittleEndianSteps(s, 1);
    assert s[0..] == s;
  }

  lemma Word(s: seq<byte>)
    requires |s| == 4
    ensures LittleEndian(s) == s[0] + 256 * (s[1] as int) + 65536 * (s[2] as int) + 16777216 * (s[3] as int)
    ensures BigEndian(s) == 16777216 * (s[0] as int) + 65536 * (s[1] as int) + 256 * (s[2] as int) + s[3]
  {
    LittleEndianSteps(s, 0);
    LittleEndianSteps(s, 1);
    LittleEndianSteps(s, 2);
    LittleEndianSteps(s, 3);
    assert s[0..] == s;
    assert s[..3][..2] == s[..2] && s[..2][..1] == s[..1] && s[..1][..0] == s[..0];
    assert BigEndian(s[..0]) == 0 && BigEndian(s[..1]) == s[0];
    assert BigEndian(s[..2]) == 256 * BigEndian(s[..1]) + s[1];
    assert BigEndian(s[..3]) == 256 * BigEndian(s[..2]) + s[2];
  }

  lemma TypeWord(low: byte, high: byte)
    ensures var word := low + 256 * (high as nat);
            && word / 0x8000 == (if high >= 128 then 1 else 0) && word % 0x1000 == low + 256 * (high % 16)
            && word / 0x1000 % 8 == (if high >= 128 then high - 128 else high) / 16
  {
    var word := low + 256 * (high as nat);
    assert word == 4096 * (high / 16) + (low + 256 * (high % 16));
    assert word / 0x1000 == high / 16;
  }

  /** `id` is the type word without the bits of the type nibble, `kind` that nibble without its top bit. */
  lemma DescriptorMeans(body: seq<byte>, at: nat)
    requires at + 4 <= |body|
    ensures var d := ReadDescriptor(body, at);
            var low, high := body[at] as int, body[at + 1] as int;
            && d.id == low + 256 * (high % 16) + (if high >= 128 then 32768 else 0)
            && d.kind == (if high >= 128 then high - 128 else high) / 16
            && d.width == body[at + 2]
  {
    hide LittleEndian;
    HalfWord(body[at..at + 2]);
    TypeWord(body[at], body[at + 1]);
  }

  /** What a header has to describe: fields of the three types in their widths, and no id twice. */
  lemma FieldsMean(ds: seq<Descriptor>, k: nat)
    requires k < |ds|
    ensures SupportedField(ds[k]) <==>
              (ds[k].kind == 1 && ds[k].width == 4) || (ds[k].kind == 2 && ds[k].width == 4) || (ds[k].kind == 3 && ds[k].width == 2)
    ensures DistinctIds(ds) <==> forall i, j :: 0 <= i < |ds| && 0 <= j < |ds| && ds[i].id == ds[j].id ==> i == j
  {
  }

  /** The k-th descriptor stands at 24 + 4k. */
  lemma DescribedMeans(body: seq<byte>, count: nat, ds: seq<Descriptor>, k: nat)
    requires 24 + 4 * count <= |body| && Described(body, count, ds) && k < count
    ensures |ds| == count
    ensures var at := 24 + 4 * k;
            var low, high := body[at] as int, body[at + 1] as int;
            && ds[k].id == low + 256 * (high % 16) + (if high >= 128 then 32768 else 0)
            && ds[k].kind == (if high >= 128 then high - 128 else high) / 16
            && ds[k].width == body[at + 2]
  {
    hide ReadDescriptor;
    DescriptorMeans(body, 24 + 4 * k);
  }

  /** A table has a column for every field and no other. */
  lemma TableHasTheFields(data: map<nat, seq<int>>, rows: seq<byte>, points: nat, ds: seq<Descriptor>, id: nat)
    requires TableOf(data, rows, points, ds)
    ensures id in data <==> exists k :: 0 <= k < |ds| && ds[k].id == id
  {
    hide ColumnOf;
  }

  lemma HeaderMeans(segment: seq<byte>, size: nat)
    requires |segment| >= 8
    ensures CompressedHeader(segment, size) <==>
            && size == 16777216 * (segment[4] as int) + 65536 * (segment[5] as int) + 256 * (segment[6] as int) + segment[7]
            && var length := segment[0] + 256 * (segment[1] as int) + 65536 * (segment[2] as int) + 16777216 * (segment[3] as int);
               length == |segment| - 8 || length == |segment| - 4
  {
    Word(segment[4..8]);
    Word(segment[..4]);
  }

  /** The number a word stands for: kind 1 unsigned, kinds 2 and 3 two's complement. */
  lemma FieldValueMeans(d: Descriptor, raw: seq<byte>)
    requires SupportedField(d) && |raw| == d.width
    ensures d.kind == 1 ==>
              FieldValue(d, raw) == raw[0] + 256 * (raw[1] as int) + 65536 * (raw[2] as int) + 16777216 * (raw[3] as int)
    ensures d.kind == 2 ==>
              FieldValue(d, raw) == raw[0] + 256 * (raw[1] as int) + 65536 * (raw[2] as int) + 16777216 * (raw[3] as int)
                                  - if raw[3] >= 128 then 4294967296 else 0
    ensures d.kind == 3 ==> FieldValue(d, raw) == raw[0] + 256 * (raw[1] as int) - if raw[1] >= 128 then 65536 else 0
    ensures d.kind == 1 ==> 0 <= FieldValue(d, raw) < 4294967296
    ensures d.kind == 2 ==> -2147483648 <= FieldValue(d, raw) < 2147483648
    ensures d.kind == 3 ==> -32768 <= FieldValue(d, raw) < 32768
  {
    hide LittleEndian, BigEndian;
    assert Power256(2) == 65536 && Power256(4) == 4294967296 by { Powers(); }
    if d.kind == 3 {
      HalfWord(raw);
    } else {
      Word(raw);
    }
  }

  lemma Powers()
    ensures Power256(2) == 65536 && Power256(4) == 4294967296
  {
    assert Power256(1) == 256;
    assert Power256(3) == 256 * Power256(2);
  }

  /** Row `row` of field `k` is read from the bytes at `row` times the row width plus the widths of the fields before it. */
  lemma TableMeans(data: map<nat, seq<int>>, rows: seq<byte>, points: nat, ds: seq<Descriptor>, k: nat, row: nat)
    requires TableOf(data, rows, points, ds) && k < |ds| && row < points && SupportedField(ds[k])
    ensures var at := row * Offset(ds, |ds|) + Offset(ds, k);
            && ds[k].id in data && |data[ds[k].id]| == points && at + ds[k].width <= |rows|
            && var value := data[ds[k].id][row];
               && (ds[k].kind == 1 ==>
                     value == rows[at] + 256 * (rows[at + 1] as int) + 65536 * (rows[at + 2] as int) + 16777216 * (rows[at + 3] as int))
               && (ds[k].kind == 2 ==>
                     value == rows[at] + 256 * (rows[at + 1] as int) + 65536 * (rows[at + 2] as int) + 16777216 * (rows[at + 3] as int)
                            - if rows[at + 3] >= 128 then 4294967296 else 0)
               && (ds[k].kind == 3 ==> value == rows[at] + 256 * (rows[at + 1] as int) - if rows[at + 1] >= 128 then 65536 else 0)
  {
    hide FieldValue, Offset;
    var at := row * Offset(ds, |ds|) + Offset(ds, k);
    assert ColumnOf(data[ds[k].id], rows, points, ds, k);
    assert data[ds[k].id][row] == Field(rows, points, ds, k, row);
    FieldStaysInItsRow(ds, k, row, points);
    FieldValueMeans(ds[k], rows[at..at + ds[k].width]);
  }

  lemma SameTableMeans(rows: seq<byte>, columns: seq<byte>, points: nat, width: nat, row: nat, column: nat)
    requires SameTable(rows, columns, points, width) && row < points && column < width
    ensures row * width + column < |rows| && column * points + row < |columns|
    ensures rows[row * width + column] == columns[column * points + row]
  {
    assert At(row, width, column) == row * width + column && At(column, points, row) == column * points + row;
  }

  /**
   A table and its bytes determine each other: the two's complement bytes of a half word, placed in its column and row,
   read back as that half word.
   */
  lemma HalfWordRoundTrip(data: map<nat, seq<int>>, rows: seq<byte>, points: nat, ds: seq<Descriptor>, k: nat, row: nat, value: int)
    requires TableOf(data, rows, points, ds) && k < |ds| && row < points && SupportedField(ds[k]) && ds[k].kind == 3
    requires -32768 <= value < 32768
    requires var at := row * Offset(ds, |ds|) + Offset(ds, k);
             at + 2 <= |rows| && rows[at] == value % 256 && rows[at + 1] == value / 256 % 256
    ensures ds[k].id in data && row < |data[ds[k].id]| && data[ds[k].id][row] == value
  {
    hide TableOf, Offset;
    TableMeans(data, rows, points, ds, k, row);
  }

  /** The four bytes of a word, the top one with its sign. */
  lemma FourBytes(value: int)
    ensures value == value % 256 + 256 * (value / 256 % 256) + 65536 * (value / 65536 % 256) + 16777216 * (value / 16777216)
  {
    assert value == value % 256 + 256 * (value / 256);
    assert value / 256 == value / 256 % 256 + 256 * (value / 65536);
    assert value / 65536 == value / 65536 % 256 + 256 * (value / 16777216);
  }

  lemma TopByte(value: int)
    ensures 0 <= value < 4294967296 ==> value / 16777216 % 256 == value / 16777216
    ensures -2147483648 <= value < 0 ==> value / 16777216 % 256 == value / 16777216 + 256 >= 128
    ensures 0 <= value < 2147483648 ==> value / 16777216 < 128
  {
  }

  lemma WordRoundTrip(data: map<nat, seq<int>>, rows: seq<byte>, points: nat, ds: seq<Descriptor>, k: nat, row: nat, value: int)
    requires TableOf(data, rows, points, ds) && k < |ds| && row < points && SupportedField(ds[k]) && ds[k].kind != 3
    requires if ds[k].kind == 1 then 0 <= value < 4294967296 else -2147483648 <= value < 2147483648
    requires var at := row * Offset(ds, |ds|) + Offset(ds, k);
             && at + 4 <= |rows| && rows[at] == value % 256 && rows[at + 1] == value / 256 % 256
             && rows[at + 2] == value / 65536 % 256 && rows[at + 3] == value / 16777216 % 256
    ensures ds[k].id in data && row < |data[ds[k].id]| && data[ds[k].id][row] == value
  {
    hide TableOf, Offset;
    TableMeans(data, rows, points, ds, k, row);
    FourBytes(value);
    TopByte(value);
  }

  /** A raw half word of two 255s is minus one. */
  lemma AllOnesIsMinusOne(data: map<nat, seq<int>>, rows: seq<byte>, ds: seq<Descriptor>)
    requires rows == [255, 255] && ds == [Descriptor(1, 3, 2)] && TableOf(data, rows, 1, ds)
    ensures 1 in data && data[1] == [-1]
  {
    hide TableOf;
    assert Offset(ds, 0) == 0 && Offset(ds, 1) == 2;
    TableMeans(data, rows, 1, ds, 0, 0);
  }

  // ---------------------------------------------------------------- an example

  /** A run of eleven zeros and two pairs of zeros: seven bytes for a table of sixteen. */
  function ZeroTokens(): (ts: seq<Gov.Token>)
    ensures Gov.ValidTokens(ts)
  {
    [Gov.Run(None, Gov.Short(11)), Gov.Pair(0, 0), Gov.Pair(0, 0)]
  }

  function Zeros(count: nat): (s: seq<byte>)
    ensures |s| == count
  {
    seq(count, _ => 0)
  }

  lemma ZeroTokensCoverSixteen()
    ensures Gov.Covers([0], ZeroTokens(), 16)
    ensures Gov.ExpandAll([0], ZeroTokens())[..16] == Zeros(16)
  {
    var ts := ZeroTokens();
    var o1 := Gov.Expand([0], ts[0]);
    var o2 := Gov.Expand(o1, ts[1]);
    var o3 := Gov.Expand(o2, ts[2]);
    assert |o1| == 12 && |o2| == 14 && |o3| == 16;
    assert ts[1..] == [ts[1], ts[2]] && ts[1..][1..] == [ts[2]] && ts[1..][1..][1..] == [];
    assert Gov.Covers(o3, [], 16);
    assert Gov.Covers(o2, [ts[2]], 16);
    assert Gov.Covers(o1, [ts[1], ts[2]], 16);
    assert Gov.ExpandAll(o2, [ts[2]]) == o3;
    assert Gov.ExpandAll(o1, [ts[1], ts[2]]) == o3;
    assert forall i :: 0 <= i < 16 ==> o3[i] == 0;
  }

  lemma {:induction false} ZeroBitsAreZero(bits: seq<bool>, top: nat)
    requires |bits| <= top + 1 && forall i :: 0 <= i < |bits| ==> !bits[i]
    ensures Gov.Value(bits, top) == 0
  {
    if |bits| > 1 {
      ZeroBitsAreZero(bits[1..], top - 1);
    }
  }

  lemma SevenOnes()
    ensures Gov.Pack([true, true, true, true, true, true, true, false]) == 254
  {
    var bits := [true, true, true, true, true, true, true, false];
    assert Gov.Value(bits[7..], 0) == 0;
    assert bits[6..][1..] == bits[7..] && bits[5..][1..] == bits[6..] && bits[4..][1..] == bits[5..];
    assert bits[3..][1..] == bits[4..] && bits[2..][1..] == bits[3..] && bits[1..][1..] == bits[2..];
    assert Gov.Power2(0) == 1 && Gov.Power2(1) == 2 && Gov.Power2(2) == 4 && Gov.Power2(3) == 8;
    assert Gov.Power2(4) == 16 && Gov.Power2(5) == 32 && Gov.Power2(6) == 64 && Gov.Power2(7) == 128;
    assert Gov.Value(bits[6..], 1) == 2;
    assert Gov.Value(bits[5..], 2) == 6;
    assert Gov.Value(bits[4..], 3) == 14;
    assert Gov.Value(bits[3..], 4) == 30;
    assert Gov.Value(bits[2..], 5) == 62;
    assert Gov.Value(bits[1..], 6) == 126;
    assert bits[0..] == bits;
  }

  lemma WrittenPairs()
    ensures Gov.WriteTokens([Gov.Pair(0, 0), Gov.Pair(0, 0)], Gov.RawStream(Gov.Zeros(6), [0])) == Gov.RawStream(Gov.Zeros(8), [0, 0, 0, 0, 0])
  {
    var ts := [Gov.Pair(0, 0), Gov.Pair(0, 0)];
    var s := Gov.RawStream(Gov.Zeros(6), [0]);
    assert ts[1..] == [Gov.Pair(0, 0)] && ts[1..][1..] == [];
    var s1 := Gov.WriteToken(Gov.Pair(0, 0), s);
    assert s1 == Gov.RawStream(Gov.Zeros(7), [0, 0, 0]);
    assert Gov.WriteTokens(ts[1..], s) == s1;
    assert Gov.WriteToken(Gov.Pair(0, 0), s1) == Gov.RawStream(Gov.Zeros(8), [0, 0, 0, 0, 0]);
  }

  lemma ZeroTokensAreWritten()
    ensures Gov.Serialises([254, 0, 0, 0, 0, 0, 0, 0], 0, ZeroTokens(), Gov.RawStream(Gov.Zeros(6), [0]))
  {
    hide Gov.Pack;
    var ts := ZeroTokens();
    WrittenPairs();
    assert ts[1..] == [Gov.Pair(0, 0), Gov.Pair(0, 0)];
    var s2 := Gov.RawStream(Gov.Zeros(8), [0, 0, 0, 0, 0]);
    var zero := Gov.Pack(Gov.Zeros(8));
    assert zero == 0 by { ZeroBits(); }
    ElevenIsWritten(s2);
    var w6 := Gov.WriteLength(Gov.Short(11), s2);
    var w8 := Gov.WriteToken(ts[0], s2);
    assert w8 == Gov.RawStream([true, true, true, true, true, true, true, false], [0, 0, 0, 0, 0, 0]);
    SevenOnes();
  }

  lemma ElevenIsWritten(s2: Gov.Stream)
    requires s2 == Gov.RawStream(Gov.Zeros(8), [0, 0, 0, 0, 0]) && Gov.Pack(Gov.Zeros(8)) == 0
    ensures Gov.WriteLength(Gov.Short(11), s2) == Gov.RawStream([true, true, true, true, true, false], [0, 0, 0, 0, 0, 0])
  {
    hide Gov.Pack;
    var w1 := Gov.Put(false, s2);
    assert w1 == Gov.RawStream([false], [0, 0, 0, 0, 0, 0]);
    var w3 := Gov.Put3(true, true, false, s2);
    assert w3 == Gov.RawStream([true, true, false], [0, 0, 0, 0, 0, 0]);
    var w6 := Gov.Put3(true, true, true, w3);
    assert w6 == Gov.RawStream([true, true, true, true, true, false], [0, 0, 0, 0, 0, 0]);
    assert Gov.WriteLength(Gov.Short(11), s2) == w6;
  }

  lemma ZeroBits()
    ensures Gov.Pack(Gov.Zeros(8)) == 0
  {
    ZeroBitsAreZero(Gov.Zeros(8), 7);
  }

  lemma ZeroPayloadDecodes()
    ensures Gov.DecodeGov([254, 0, 0, 0, 0, 0, 0, 0], 16) == Ok(Zeros(16))
  {
    hide Gov.Covers, Gov.ExpandAll, Gov.Serialises, Gov.DecodeGov;
    ZeroTokensAreWritten();
    ZeroTokensCoverSixteen();
    Gov.CoversIsValid([0], ZeroTokens(), 16);
    Gov.EncodedIsDecoded([254, 0, 0, 0, 0, 0, 0, 0], 16, Zeros(16), 0, ZeroTokens(), Gov.RawStream(Gov.Zeros(6), [0]));
  }

  /** The column bytes of the example: eight header bytes, seven bytes of tokens, and one byte nobody reads. */
  const ZERO_SEGMENT: seq<byte> := [8, 0, 0, 0, 0, 0, 0, 16, 254, 0, 0, 0, 0, 0, 0, 0]

  /** One field: a signed half word. */
  const HALF_WORD: seq<Descriptor> := [Descriptor(1, 3, 2)]

  /**
   A table of eight zero half words whose compressed form is sixteen bytes long as well: it is taken for raw rows,
   and the column read from it is not the column of the table. The field is one that a header can describe.
   */
  lemma CompressedFormCanBeTakenForRaw(data: map<nat, seq<int>>, header: seq<byte>)
    requires TableOf(data, ZERO_SEGMENT, 8, HALF_WORD)
    requires |header| == 28 && header[24..] == [1, 48, 2, 0]
    ensures Described(header, 1, HALF_WORD) && SupportedField(HALF_WORD[0]) && DistinctIds(HALF_WORD) && Offset(HALF_WORD, 1) == 2
    ensures Compresses(ZERO_SEGMENT, 8, 2, Zeros(16), Zeros(16)) && |ZERO_SEGMENT| == 8 * 2
    ensures !TableOf(data, Zeros(16), 8, HALF_WORD)
  {
    hide Gov.DecodeGov, TableOf, LittleEndian, BigEndian, SameTable;
    OneHalfWord(header);
    ZeroPayloadDecodes();
    SegmentParts();
    ExampleLengths();
    ZerosAreTheirColumns();
    FirstCellDiffers(data);
  }

  lemma OneHalfWord(header: seq<byte>)
    requires |header| == 28 && header[24..] == [1, 48, 2, 0]
    ensures |HALF_WORD| == 1 && Offset(HALF_WORD, 0) == 0 && Offset(HALF_WORD, 1) == 2 && Described(header, 1, HALF_WORD)
  {
    hide LittleEndian;
    assert header[24] == header[24..][0] && header[25] == header[24..][1] && header[26] == header[24..][2];
    assert header[24..26] == [1, 48];
    PairValue(1, 48);
  }

  lemma PairValue(low: byte, high: byte)
    ensures LittleEndian([low, high]) == low + 256 * high
  {
    var pair: seq<byte> := [low, high];
    assert pair[1..] == [high] && pair[1..][1..] == [];
    assert LittleEndian([high]) == high;
  }

  lemma SegmentParts()
    ensures ZERO_SEGMENT[8..] == [254, 0, 0, 0, 0, 0, 0, 0] && ZERO_SEGMENT[4..8] == [0, 0, 0, 16] && ZERO_SEGMENT[..4] == [8, 0, 0, 0]
  {
  }

  lemma ZerosAreTheirColumns()
    ensures SameTable(Zeros(16), Zeros(16), 8, 2)
  {
    forall row, column | 0 <= row < 8 && 0 <= column < 2
      ensures At(row, 2, column) < 16 && At(column, 8, row) < 16
    {
      AtIsInside(row, 8, 2, column);
      AtIsInside(column, 2, 8, row);
    }
  }

  lemma HalfWordValue(raw: seq<byte>)
    requires |raw| == 2 && raw[0] < 128 && raw[1] == 0
    ensures FieldValue(Descriptor(1, 3, 2), raw) == raw[0]
  {
    assert raw == [raw[0], raw[1]];
    PairValue(raw[0], raw[1]);
    assert Power256(1) == 256 && Power256(2) == 65536;
  }

  lemma HalfWordOffsets()
    ensures |HALF_WORD| == 1 && Offset(HALF_WORD, 0) == 0 && Offset(HALF_WORD, |HALF_WORD|) == 2
  {
    assert Offset(HALF_WORD, 1) == Offset(HALF_WORD, 0) + 2;
  }

  /** The first cell of the first field starts the table. */
  lemma FirstFieldStartsTheTable(rows: seq<byte>, points: nat, ds: seq<Descriptor>)
    requires |rows| == points * Offset(ds, |ds|) && |ds| > 0 && points > 0
    ensures ds[0].width <= |rows| && Field(rows, points, ds, 0, 0) == FieldValue(ds[0], rows[..ds[0].width])
  {
    hide FieldValue, At;
    FieldStaysInItsRow(ds, 0, 0, points);
    assert At(0, Offset(ds, |ds|), Offset(ds, 0)) == 0 by { StartOfTable(Offset(ds, |ds|)); }
    assert rows[0..ds[0].width] == rows[..ds[0].width];
  }

  lemma StartOfTable(width: nat)
    ensures At(0, width, 0) == 0
  {
  }

  /** The first value of the only column. */
  lemma FirstValue(data: map<nat, seq<int>>, rows: seq<byte>)
    requires TableOf(data, rows, 8, HALF_WORD)
    requires |rows| == 16 && rows[0] < 128 && rows[1] == 0
    ensures 1 in data && |data[1]| > 0 && data[1][0] == rows[0]
  {
    hide Field, FieldValue, Offset;
    HalfWordOffsets();
    HalfWordValue(rows[..2]);
    FirstFieldStartsTheTable(rows, 8, HALF_WORD);
    assert ColumnOf(data[HALF_WORD[0].id], rows, 8, HALF_WORD, 0);
  }

  lemma FirstCellDiffers(data: map<nat, seq<int>>)
    requires TableOf(data, ZERO_SEGMENT, 8, HALF_WORD)
    ensures !TableOf(data, Zeros(16), 8, HALF_WORD)
  {
    hide TableOf;
    FirstValue(data, ZERO_SEGMENT);
    if TableOf(data, Zeros(16), 8, HALF_WORD) {
      FirstValue(data, Zeros(16));
    }
  }

  lemma ExampleLengths()
    ensures BigEndian([0, 0, 0, 16]) == 16 && LittleEndian([8, 0, 0, 0]) == 8
  {
    var big: seq<byte> := [0, 0, 0, 16];
    assert big[..3][..2] == big[..2] && big[..2][..1] == big[..1] && big[..1][..0] == [];
    assert BigEndian(big[..1]) == 0;
    assert BigEndian(big[..2]) == 0;
    assert BigEndian(big[..3]) == 0;
    var little: seq<byte> := [8, 0, 0, 0];
    assert LittleEndian(little[3..]) == 0;
    assert little[2..][1..] == little[3..] && little[1..][1..] == little[2..];
    assert LittleEndian(little[2..]) == 0;
    assert LittleEndian(little[1..]) == 0;
  }
}
