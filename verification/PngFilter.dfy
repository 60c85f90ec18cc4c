/** Scanline filters of PNG (section 6 of RFC 2083): reconstruction in place undoes filtering. A row is
    predicted from the row above and from its own bytes already reconstructed, so the loops say how far
    reconstruction has come, byte by byte and row by row. */
module PngFilter {
  import opened Bytes
  import opened Slices

  function Distance(a: int, b: int): nat { if a > b then a - b else b - a }

  /** The Paeth predictor: the nearest of left, up and upper left to their estimate, in that order on ties. */
  function Paeth(left: Byte, up: Byte, upLeft: Byte): Byte {
    var p := left + up - upLeft;
    var pa, pb, pc := Distance(p, left), Distance(p, up), Distance(p, upLeft);
    if pa <= pb && pa <= pc then left else if pb <= pc then up else upLeft
  }

  /** What a filter predicts from the bytes around: none, sub, up, average, Paeth. */
  function Predict(filter: Byte, left: Byte, up: Byte, upLeft: Byte): Byte {
    if filter == 1 then left
    else if filter == 2 then up
    else if filter == 3 then (left + up) / 2
    else if filter == 4 then Paeth(left, up, upLeft)
    else 0
  }

  function Behind(row: seq<Byte>, x: nat, bpp: nat): Byte
    requires x <= |row| && bpp > 0
  {
    if x >= bpp then row[x - bpp] else 0
  }

  /** The first `n` bytes of a row reconstructed from its filtered bytes and the row above. */
  function Recon(filter: Byte, bpp: nat, above: seq<Byte>, cur: seq<Byte>, n: nat): (r: seq<Byte>)
    requires bpp > 0 && n <= |cur| == |above|
    ensures |r| == n
  {
    if n == 0 then []
    else
      var r, x := Recon(filter, bpp, above, cur, n - 1), n - 1;
      r + [(cur[x] + Predict(filter, Behind(r, x, bpp), above[x], Behind(above, x, bpp))) % 256]
  }

  /** The first `n` bytes of a row as its writer filters them. */
  function Filtered(filter: Byte, bpp: nat, above: seq<Byte>, row: seq<Byte>, n: nat): (r: seq<Byte>)
    requires bpp > 0 && n <= |row| == |above|
    ensures |r| == n
  {
    if n == 0 then []
    else
      var x := n - 1;
      Filtered(filter, bpp, above, row, x)
      + [(row[x] - Predict(filter, Behind(row, x, bpp), above[x], Behind(above, x, bpp))) % 256]
  }

  lemma AddBack(a: Byte, p: Byte)
    ensures ((a - p) % 256 + p) % 256 == a
  {
  }

  /** Reconstruction undoes filtering, row by row. */
  lemma {:induction false} ReconUndoesFilter(filter: Byte, bpp: nat, above: seq<Byte>, row: seq<Byte>, cur: seq<Byte>,
                                             n: nat)
    requires bpp > 0 && n <= |row| == |above| == |cur|
    requires cur[..n] == Filtered(filter, bpp, above, row, n)
    ensures Recon(filter, bpp, above, cur, n) == row[..n]
  {
    hide Predict;
    if n > 0 {
      var x := n - 1;
      var f := Filtered(filter, bpp, above, row, x);
      assert cur[..x] == cur[..n][..x] == f;
      ReconUndoesFilter(filter, bpp, above, row, cur, x);
      assert cur[x] == cur[..n][x];
      assert Behind(row[..x], x, bpp) == Behind(row, x, bpp);
      AddBack(row[x], Predict(filter, Behind(row, x, bpp), above[x], Behind(above, x, bpp)));
      assert row[..n] == row[..x] + [row[x]];
    }
  }

  // --- Whole images ---

  /** Rows of one length, each behind its filter byte. */
  predicate Raw(rows: seq<seq<Byte>>, rowBytes: nat) {
    forall y :: 0 <= y < |rows| ==> |rows[y]| == rowBytes + 1
  }

  function Flat(rows: seq<seq<Byte>>): seq<Byte> {
    if rows == [] then [] else rows[0] + Flat(rows[1..])
  }

  /** The rows reconstructed, `above` being the row above the first. */
  function ReconRows(bpp: nat, above: seq<Byte>, rows: seq<seq<Byte>>): (r: seq<seq<Byte>>)
    requires bpp > 0 && Raw(rows, |above|)
    ensures |r| == |rows| && Raw(r, |above|)
    decreases |rows|
  {
    if rows == [] then []
    else
      var r := Recon(rows[0][0], bpp, above, rows[0][1..], |above|);
      [[rows[0][0]] + r] + ReconRows(bpp, r, rows[1..])
  }

  /** An image as its writer filters it: a filter for every row. */
  function FilteredRows(bpp: nat, above: seq<Byte>, filters: seq<Byte>, image: seq<seq<Byte>>): (r: seq<seq<Byte>>)
    requires bpp > 0 && |filters| == |image| && forall y :: 0 <= y < |image| ==> |image[y]| == |above|
    ensures |r| == |image| && Raw(r, |above|)
    decreases |image|
  {
    if image == [] then []
    else [[filters[0]] + Filtered(filters[0], bpp, above, image[0], |above|)]
         + FilteredRows(bpp, image[0], filters[1..], image[1..])
  }

  function Labelled(filters: seq<Byte>, image: seq<seq<Byte>>): seq<seq<Byte>>
    requires |filters| == |image|
  {
    if image == [] then [] else [[filters[0]] + image[0]] + Labelled(filters[1..], image[1..])
  }

  predicate KnownFilters(rows: seq<seq<Byte>>) {
    forall y :: 0 <= y < |rows| ==> |rows[y]| > 0 && rows[y][0] <= 4
  }

  /** Whatever filters the rows were written with, reconstruction gives the image back. */
  lemma {:induction false} ImageReadsBack(bpp: nat, above: seq<Byte>, filters: seq<Byte>, image: seq<seq<Byte>>)
    requires bpp > 0 && |filters| == |image| && forall y :: 0 <= y < |image| ==> |image[y]| == |above|
    ensures ReconRows(bpp, above, FilteredRows(bpp, above, filters, image)) == Labelled(filters, image)
    decreases |image|
  {
    hide Recon, Filtered;
    if image != [] {
      var f := Filtered(filters[0], bpp, above, image[0], |above|);
      var rows := FilteredRows(bpp, above, filters, image);
      assert rows[0][1..] == f && rows[1..] == FilteredRows(bpp, image[0], filters[1..], image[1..]);
      assert f[..|above|] == f && image[0][..|above|] == image[0];
      ReconUndoesFilter(filters[0], bpp, above, image[0], f, |above|);
      ImageReadsBack(bpp, image[0], filters[1..], image[1..]);
    }
  }

  // --- What a reconstructed byte is ---

  /** How far a byte is from the estimate left + up - upper left. */
  function Off(b: Byte, left: Byte, up: Byte, upLeft: Byte): int {
    var e: int := left + up - upLeft;
    if b >= e then b - e else e - b
  }

  /** The Paeth choice: one of left, up and upper left, none of which is nearer to the estimate, and none that comes
      before it as near. */
  predicate Chosen(p: Byte, left: Byte, up: Byte, upLeft: Byte) {
    var a, b, c := Off(left, left, up, upLeft), Off(up, left, up, upLeft), Off(upLeft, left, up, upLeft);
    || (p == left && a <= b && a <= c)
    || (p == up && b < a && b <= c)
    || (p == upLeft && c < a && c < b)
  }

  /** The byte a filter makes of the byte read and the bytes around it, modulo 256. */
  ghost predicate Rebuilt(filter: Byte, read: Byte, left: Byte, up: Byte, upLeft: Byte, b: Byte) {
    match filter
    case 0 => b == read
    case 1 => b == (read + left) % 256
    case 2 => b == (read + up) % 256
    case 3 => b == (read + (left + up) / 2) % 256
    case 4 => exists p :: Chosen(p, left, up, upLeft) && b == (read + p) % 256
    case _ => true
  }

  /** Every byte of a row is rebuilt from the byte `bpp` places to its left, zero if there is none, and from those
      above. */
  ghost predicate RowRebuilt(filter: Byte, bpp: nat, above: seq<Byte>, read: seq<Byte>, row: seq<Byte>)
    requires bpp > 0 && |row| == |read| == |above|
  {
    forall x :: 0 <= x < |row| ==> ByteRebuilt(filter, bpp, above, read, row, x)
  }

  ghost predicate ByteRebuilt(filter: Byte, bpp: nat, above: seq<Byte>, read: seq<Byte>, row: seq<Byte>, x: nat)
    requires bpp > 0 && x < |row| <= |read| == |above|
  {
    var left, upLeft := if x < bpp then 0 else row[x - bpp], if x < bpp then 0 else above[x - bpp];
    Rebuilt(filter, read[x], left, above[x], upLeft, row[x])
  }

  /** Every row keeps its filter byte and is rebuilt under the row before it, the first under `above`. */
  ghost predicate ImageRebuilt(bpp: nat, above: seq<Byte>, rows: seq<seq<Byte>>, image: seq<seq<Byte>>)
    requires bpp > 0 && |image| == |rows| && Raw(rows, |above|) && Raw(image, |above|)
  {
    forall y :: 0 <= y < |rows| ==>
      && image[y][0] == rows[y][0]
      && RowRebuilt(rows[y][0], bpp, if y == 0 then above else image[y - 1][1..], rows[y][1..], image[y][1..])
  }

  lemma PaethIsChosen(left: Byte, up: Byte, upLeft: Byte)
    ensures Chosen(Paeth(left, up, upLeft), left, up, upLeft)
  {
  }

  lemma PredictRebuilds(filter: Byte, read: Byte, left: Byte, up: Byte, upLeft: Byte)
    ensures Rebuilt(filter, read, left, up, upLeft, (read + Predict(filter, left, up, upLeft)) % 256)
  {
    PaethIsChosen(left, up, upLeft);
    hide Paeth, Chosen;
  }

  lemma {:induction false} ReconRebuilds(filter: Byte, bpp: nat, above: seq<Byte>, read: seq<Byte>, n: nat, x: nat)
    requires bpp > 0 && x < n <= |read| == |above|
    ensures ByteRebuilt(filter, bpp, above, read, Recon(filter, bpp, above, read, n), x)
  {
    hide Rebuilt, Predict;
    var r := Recon(filter, bpp, above, read, n - 1);
    if x < n - 1 {
      ReconRebuilds(filter, bpp, above, read, n - 1, x);
    } else {
      PredictRebuilds(filter, read[x], Behind(r, x, bpp), above[x], Behind(above, x, bpp));
    }
  }

  lemma ReconRebuildsRow(filter: Byte, bpp: nat, above: seq<Byte>, read: seq<Byte>)
    requires bpp > 0 && |read| == |above|
    ensures RowRebuilt(filter, bpp, above, read, Recon(filter, bpp, above, read, |above|))
  {
    hide Recon, ByteRebuilt;
    var r := Recon(filter, bpp, above, read, |above|);
    forall x | 0 <= x < |r| ensures ByteRebuilt(filter, bpp, above, read, r, x) {
      ReconRebuilds(filter, bpp, above, read, |above|, x);
    }
  }

  /** A rebuilt row on rebuilt rows. */
  lemma OnTop(bpp: nat, above: seq<Byte>, rows: seq<seq<Byte>>, r: seq<Byte>, rest: seq<seq<Byte>>)
    requires bpp > 0 && rows != [] && Raw(rows, |above|) && |r| == |above| && |rest| == |rows| - 1 && Raw(rest, |above|)
    requires RowRebuilt(rows[0][0], bpp, above, rows[0][1..], r) && ImageRebuilt(bpp, r, rows[1..], rest)
    ensures ImageRebuilt(bpp, above, rows, [[rows[0][0]] + r] + rest)
  {
    hide RowRebuilt;
    var image := [[rows[0][0]] + r] + rest;
    assert image[0][1..] == r;
    forall y | 0 <= y < |rows|
      ensures image[y][0] == rows[y][0]
      ensures RowRebuilt(rows[y][0], bpp, if y == 0 then above else image[y - 1][1..], rows[y][1..], image[y][1..])
    {
      if y > 0 {
        assert rows[y] == rows[1..][y - 1] && image[y] == rest[y - 1];
        if y > 1 { assert image[y - 1] == rest[y - 2]; }
      }
    }
  }

  /** Reconstruction rebuilds every byte of every row as its filter says. */
  lemma {:induction false} ReconRebuildsImage(bpp: nat, above: seq<Byte>, rows: seq<seq<Byte>>)
    requires bpp > 0 && Raw(rows, |above|)
    ensures ImageRebuilt(bpp, above, rows, ReconRows(bpp, above, rows))
    decreases |rows|
  {
    hide RowRebuilt, Recon;
    if rows != [] {
      var r := Recon(rows[0][0], bpp, above, rows[0][1..], |above|);
      ReconRebuildsRow(rows[0][0], bpp, above, rows[0][1..]);
      ReconRebuildsImage(bpp, r, rows[1..]);
      OnTop(bpp, above, rows, r, ReconRows(bpp, r, rows[1..]));
    }
  }

  // --- Reconstruction in place ---

  lemma ReconStep(filter: Byte, bpp: nat, above: seq<Byte>, cur: seq<Byte>, x: nat)
    requires bpp > 0 && x < |cur| == |above|
    ensures var r := Recon(filter, bpp, above, cur, x);
            Recon(filter, bpp, above, cur, x + 1)
            == r + [(cur[x] + Predict(filter, Behind(r, x, bpp), above[x], Behind(above, x, bpp))) % 256]
  {
  }

  /** The row above, which reads as zeros above the first row. */
  ghost predicate Above(raw: seq<Byte>, aboveAt: nat, first: bool, above: seq<Byte>) {
    if first then forall x :: 0 <= x < |above| ==> above[x] == 0
    else aboveAt + |above| <= |raw| && raw[aboveAt..aboveAt + |above|] == above
  }

  /** Predicts one byte from the bytes in place. */
  method PredictAt(raw: array<Byte>, base: nat, aboveAt: nat, first: bool, x: nat, bpp: nat, filter: Byte,
                   ghost r: seq<Byte>, ghost above: seq<Byte>)
    returns (p: Byte)
    requires bpp > 0 && base + x < raw.Length && x < |above| && (!first ==> aboveAt + |above| <= base)
    requires raw[base..base + x] == r && Above(raw[..], aboveAt, first, above)
    ensures p == Predict(filter, Behind(r, x, bpp), above[x], Behind(above, x, bpp))
  {
    var left: Byte := if x >= bpp then raw[base + (x - bpp)] else 0;
    var up: Byte := if first then 0 else raw[aboveAt + x];
    var upLeft: Byte := if !first && x >= bpp then raw[aboveAt + (x - bpp)] else 0;
    assert x >= bpp ==> raw[base..base + x][x - bpp] == left;
    assert !first ==> raw[..][aboveAt..aboveAt + |above|][x] == up;
    assert !first && x >= bpp ==> raw[..][aboveAt..aboveAt + |above|][x - bpp] == upLeft;
    p := Predict(filter, left, up, upLeft);
  }

  lemma AboveStays(before: seq<Byte>, after: seq<Byte>, base: nat, aboveAt: nat, first: bool, above: seq<Byte>)
    requires Above(before, aboveAt, first, above) && (!first ==> aboveAt + |above| <= base)
    requires base <= |before| && base <= |after| && before[..base] == after[..base]
    ensures Above(after, aboveAt, first, above)
  {
    if !first { EqualPrefix(before, after, base, aboveAt, aboveAt + |above|); }
  }

  /** `s` is `before` with the bytes from `base` replaced by `r`. */
  ghost predicate Replaced(before: seq<Byte>, s: seq<Byte>, base: nat, r: seq<Byte>) {
    && |s| == |before| && base + |r| <= |s|
    && s[..base] == before[..base] && s[base..base + |r|] == r && s[base + |r|..] == before[base + |r|..]
  }

  lemma ReplacedMore(before: seq<Byte>, s: seq<Byte>, base: nat, r: seq<Byte>, b: Byte)
    requires Replaced(before, s, base, r) && base + |r| < |s|
    ensures s[base + |r|] == before[base + |r|]
    ensures Replaced(before, s[base + |r| := b], base, r + [b])
  {
    var x := base + |r|;
    assert s[x] == s[x..][0];
    UpdateOutside(s, x, b, 0, base);
    UpdateAtEnd(s, x, b, base);
    var next := x + 1;
    EqualSuffix(s, before, x, next, |s|);
  }

  /** Reconstructs the row at `at` in place, from the row at `aboveAt` unless it is the first. */
  method UnfilterRow(raw: array<Byte>, at: nat, aboveAt: nat, first: bool, rowBytes: nat, bpp: nat,
                     ghost above: seq<Byte>) returns (ok: bool)
    requires bpp > 0 && at + 1 + rowBytes <= raw.Length && |above| == rowBytes && (!first ==> aboveAt + rowBytes <= at)
    requires Above(raw[..], aboveAt, first, above)
    modifies raw
    ensures ok == (rowBytes == 0 || old(raw[at]) <= 4)
    ensures ok ==>
              Replaced(old(raw[..]), raw[..], at + 1,
                       Recon(old(raw[at]), bpp, above, old(raw[at + 1..at + 1 + rowBytes]), rowBytes))
  {
    hide Predict, Above, Replaced, Recon;
    var filter, base := raw[at], at + 1;
    ghost var cur, before, r := raw[base..base + rowBytes], raw[..], [];
    NothingReplaced(before, base, filter, bpp, above, cur);
    var x := 0;
    while x < rowBytes
      invariant x <= rowBytes && (x > 0 ==> filter <= 4)
      invariant r == Recon(filter, bpp, above, cur, x) && Replaced(before, raw[..], base, r)
                && Above(raw[..], aboveAt, first, above)
    {
      if filter > 4 { return false; }
      ghost var s := raw[..];
      ReplacedSees(before, s, base, r);
      var p := PredictAt(raw, base, aboveAt, first, x, bpp, filter, r, above);
      ReconStep(filter, bpp, above, cur, x);
      ghost var b: Byte := ((cur[x] as int) + p as int) % 256;
      ReplacedMore(before, s, base, r, b);
      raw[base + x] := ((raw[base + x] as int) + p as int) % 256;
      assert raw[..] == s[base + |r| := b];
      AboveStays(s, raw[..], base, aboveAt, first, above);
      r := r + [b];
      x := x + 1;
    }
    ok := true;
  }

  lemma NothingReplaced(before: seq<Byte>, base: nat, filter: Byte, bpp: nat, above: seq<Byte>, cur: seq<Byte>)
    requires base <= |before| && bpp > 0 && |cur| == |above|
    ensures Recon(filter, bpp, above, cur, 0) == [] && Replaced(before, before, base, [])
  {
  }

  lemma ReplacedSees(before: seq<Byte>, s: seq<Byte>, base: nat, r: seq<Byte>)
    requires Replaced(before, s, base, r)
    ensures |s| == |before| && base + |r| <= |s| && s[base..base + |r|] == r && s[..base] == before[..base]
  {
  }

  function Zeros(n: nat): (z: seq<Byte>)
    ensures |z| == n && forall x :: 0 <= x < n ==> z[x] == 0
  {
    seq(n, i => 0)
  }

  lemma FlatSplit(rows: seq<seq<Byte>>)
    requires rows != []
    ensures Flat(rows) == rows[0] + Flat(rows[1..])
  {
  }

  /** One row of an image replaced, the rows before it done and those behind it untouched. */
  lemma RowDone(s: seq<Byte>, t: seq<Byte>, done: seq<Byte>, row: seq<Byte>, rest: seq<Byte>, r: seq<Byte>)
    requires s == done + (row + rest) && row != [] && |row| == 1 + |r| && Replaced(s, t, |done| + 1, r)
    ensures t == (done + ([row[0]] + r)) + rest
  {
    var base := |done| + 1;
    var end := base + |r|;
    assert t == t[..base] + t[base..end] + t[end..];
    assert s[..base] == done + [row[0]];
    assert s[end..] == rest;
  }

  lemma RowsStep(bpp: nat, above: seq<Byte>, rows: seq<seq<Byte>>, done: seq<Byte>)
    requires bpp > 0 && rows != [] && Raw(rows, |above|)
    ensures var r := Recon(rows[0][0], bpp, above, rows[0][1..], |above|);
            done + Flat(ReconRows(bpp, above, rows)) == (done + ([rows[0][0]] + r)) + Flat(ReconRows(bpp, r, rows[1..]))
  {
    hide Recon;
    var r := Recon(rows[0][0], bpp, above, rows[0][1..], |above|);
    var more := ReconRows(bpp, r, rows[1..]);
    assert ReconRows(bpp, above, rows) == [[rows[0][0]] + r] + more;
    FlatSplit([[rows[0][0]] + r] + more);
    assert ([[rows[0][0]] + r] + more)[1..] == more;
    Regroup(done, [rows[0][0]] + r, Flat(more));
  }

  /** The row to do, as it stands in the buffer. */
  lemma RowStands(s: seq<Byte>, done: seq<Byte>, row: seq<Byte>, rest: seq<Byte>)
    requires s == done + (row + rest) && row != []
    ensures |done| + |row| <= |s| && s[|done|] == row[0] && s[|done| + 1..|done| + |row|] == row[1..]
  {
  }

  lemma RowAbove(t: seq<Byte>, done: seq<Byte>, tag: Byte, r: seq<Byte>, rest: seq<Byte>)
    requires t == (done + ([tag] + r)) + rest
    ensures Above(t, |done| + 1, false, r)
  {
    var base := |done| + 1;
    assert t[base..base + |r|] == r;
  }

  /** The rows in `done` are reconstructed, those in `left` are not, and `whole` is what it comes to. */
  ghost predicate Progress(s: seq<Byte>, done: seq<Byte>, first: bool, above: seq<Byte>, left: seq<seq<Byte>>,
                           bpp: nat, whole: seq<Byte>) {
    && bpp > 0 && Raw(left, |above|) && (!first ==> |done| >= |above| + 1)
    && s == done + Flat(left) && done + Flat(ReconRows(bpp, above, left)) == whole
    && Above(s, if first then 0 else |done| - |above|, first, above)
  }

  lemma RowProgresses(s: seq<Byte>, t: seq<Byte>, done: seq<Byte>, first: bool, above: seq<Byte>, left: seq<seq<Byte>>,
                      bpp: nat, whole: seq<Byte>)
    requires Progress(s, done, first, above, left, bpp, whole) && left != []
    requires Replaced(s, t, |done| + 1, Recon(left[0][0], bpp, above, left[0][1..], |above|))
    ensures var r := Recon(left[0][0], bpp, above, left[0][1..], |above|);
            Progress(t, done + ([left[0][0]] + r), false, r, left[1..], bpp, whole)
  {
    hide Recon, Replaced, Above, ReconRows, Flat;
    var r := Recon(left[0][0], bpp, above, left[0][1..], |above|);
    FlatSplit(left);
    RowDone(s, t, done, left[0], Flat(left[1..]), r);
    RowsStep(bpp, above, left, done);
    RowAbove(t, done, left[0][0], r, Flat(left[1..]));
  }

  lemma RowReady(s: seq<Byte>, done: seq<Byte>, first: bool, above: seq<Byte>, left: seq<seq<Byte>>, bpp: nat,
                 whole: seq<Byte>)
    requires Progress(s, done, first, above, left, bpp, whole) && left != []
    ensures bpp > 0 && |left[0]| == |above| + 1 && |done| + 1 + |above| <= |s| && (!first ==> |done| >= |above| + 1)
    ensures s[|done|] == left[0][0] && s[|done| + 1..|done| + 1 + |above|] == left[0][1..]
    ensures Above(s, if first then 0 else |done| - |above|, first, above)
  {
    hide Above, ReconRows, Flat;
    FlatSplit(left);
    RowStands(s, done, left[0], Flat(left[1..]));
  }

  /** Reconstructs all rows in place. Known filters give the image; any other filter byte is rejected,
      unless the rows are empty. */
  method Unfilter(raw: array<Byte>, height: nat, rowBytes: nat, bpp: nat, ghost rows: seq<seq<Byte>>) returns (ok: bool)
    requires bpp > 0 && |rows| == height && Raw(rows, rowBytes) && raw[..] == Flat(rows)
    modifies raw
    ensures ok == (rowBytes == 0 || KnownFilters(rows))
    ensures ok ==> raw[..] == Flat(ReconRows(bpp, Zeros(rowBytes), rows))
    ensures ImageRebuilt(bpp, Zeros(rowBytes), rows, ReconRows(bpp, Zeros(rowBytes), rows))
  {
    hide Recon, ReconRows, Flat, Above, Replaced, Zeros, Progress, ImageRebuilt;
    ghost var above, done := Zeros(rowBytes), [];
    ghost var whole := Flat(ReconRows(bpp, above, rows));
    ReconRebuildsImage(bpp, above, rows);
    var y, at := 0, 0;
    Starts(raw[..], rows, bpp, rowBytes);
    assert rows[0..] == rows;
    while y < height
      invariant y <= height && at == |done| && |above| == rowBytes
      invariant forall z :: 0 <= z < y ==> rowBytes == 0 || rows[z][0] <= 4
      invariant Progress(raw[..], done, y == 0, above, rows[y..], bpp, whole)
    {
      ghost var left, s := rows[y..], raw[..];
      assert left[0] == rows[y] && left[1..] == rows[y + 1..];
      RowReady(s, done, y == 0, above, left, bpp, whole);
      ok := UnfilterRow(raw, at, if y == 0 then 0 else at - rowBytes, y == 0, rowBytes, bpp, above);
      if !ok { return; }
      ghost var r := Recon(left[0][0], bpp, above, left[0][1..], rowBytes);
      RowProgresses(s, raw[..], done, y == 0, above, left, bpp, whole);
      done := done + ([left[0][0]] + r);
      above := r;
      at := at + rowBytes + 1;
      y := y + 1;
    }
    assert rows[y..] == [];
    Ends(raw[..], done, height == 0, above, bpp, whole);
    ok := true;
  }

  lemma Starts(s: seq<Byte>, rows: seq<seq<Byte>>, bpp: nat, rowBytes: nat)
    requires bpp > 0 && Raw(rows, rowBytes) && s == Flat(rows)
    ensures Progress(s, [], true, Zeros(rowBytes), rows, bpp, Flat(ReconRows(bpp, Zeros(rowBytes), rows)))
  {
    hide Flat, ReconRows, Zeros;
    ZerosAbove(s, rowBytes);
    var whole := Flat(ReconRows(bpp, Zeros(rowBytes), rows));
    assert [] + Flat(rows) == Flat(rows) && [] + whole == whole;
  }

  lemma Ends(s: seq<Byte>, done: seq<Byte>, first: bool, above: seq<Byte>, bpp: nat, whole: seq<Byte>)
    requires Progress(s, done, first, above, [], bpp, whole)
    ensures s == whole
  {
    hide Above;
    NoRows(bpp, above);
    assert done + [] == done;
  }

  lemma ZerosAbove(raw: seq<Byte>, n: nat)
    ensures Above(raw, 0, true, Zeros(n))
  {
  }

  lemma NoRows(bpp: nat, above: seq<Byte>)
    requires bpp > 0
    ensures Flat([]) == [] && ReconRows(bpp, above, []) == []
  {
  }
}
