/** `set_position_gpio` (src/gpio.c:75-88): the half-step coil table of the
    stepper motor and the row written for a position. A row holds the values
    of the four requested lines in request order (GPIO 27, 22, 23, 24);
    `true` is an active line. */
module HalfStep {

  /** The 8 x 4 table of src/gpio.c:76-85. */
  const Table: seq<seq<bool>> := [
    [false, false, false, true ],
    [false, false, true,  true ],
    [false, false, true,  false],
    [false, true,  true,  false],
    [false, true,  false, false],
    [true,  true,  false, false],
    [true,  false, false, false],
    [true,  false, false, true ]
  ]

  /** The number of lines a row drives active. */
  function ActiveLines(row: seq<bool>): nat {
    if row == [] then 0 else (if row[0] then 1 else 0) + ActiveLines(row[1..])
  }

  /** The number of lines on which two rows differ. */
  function Differences(a: seq<bool>, b: seq<bool>): nat
    requires |a| == |b|
  {
    if a == [] then 0 else (if a[0] != b[0] then 1 else 0) + Differences(a[1..], b[1..])
  }

  lemma ActiveLinesOfFour(row: seq<bool>)
    requires |row| == 4
    ensures ActiveLines(row) == (if row[0] then 1 else 0) + (if row[1] then 1 else 0)
                              + (if row[2] then 1 else 0) + (if row[3] then 1 else 0)
  {
    var r1 := row[1..];
    var r2 := r1[1..];
    var r3 := r2[1..];
    assert r3[1..] == [];
    assert ActiveLines(r3) == if row[3] then 1 else 0;
    assert ActiveLines(r2) == (if row[2] then 1 else 0) + ActiveLines(r3);
    assert ActiveLines(r1) == (if row[1] then 1 else 0) + ActiveLines(r2);
  }

  lemma DifferencesOfFour(a: seq<bool>, b: seq<bool>)
    requires |a| == 4 && |b| == 4
    ensures Differences(a, b) == (if a[0] != b[0] then 1 else 0) + (if a[1] != b[1] then 1 else 0)
                               + (if a[2] != b[2] then 1 else 0) + (if a[3] != b[3] then 1 else 0)
  {
    var a1, b1 := a[1..], b[1..];
    var a2, b2 := a1[1..], b1[1..];
    var a3, b3 := a2[1..], b2[1..];
    assert a3[1..] == [] && b3[1..] == [];
    assert Differences(a3, b3) == if a[3] != b[3] then 1 else 0;
    assert Differences(a2, b2) == (if a[2] != b[2] then 1 else 0) + Differences(a3, b3);
    assert Differences(a1, b1) == (if a[1] != b[1] then 1 else 0) + Differences(a2, b2);
  }

  /** Even rows drive exactly one line, odd rows exactly two: no row is all
      off and none drives more than two lines. */
  lemma RowActiveLines(r: nat)
    requires r < |Table|
    ensures |Table[r]| == 4
    ensures ActiveLines(Table[r]) == if r % 2 == 0 then 1 else 2
  {
    ActiveLinesOfFour(Table[r]);
  }

  /** Cyclically adjacent rows, row 7 to row 0 included, differ in exactly
      one line: the table is a half-step sequence. */
  lemma AdjacentRowsDifferInOneLine(r: nat)
    requires r < |Table|
    ensures Differences(Table[r], Table[(r + 1) % |Table|]) == 1
  {
    var next := if r == 7 then 0 else r + 1;
    assert (r + 1) % |Table| == next;
    DifferencesOfFour(Table[r], Table[next]);
  }

  /** C's `a % 8` on `int`: the remainder takes the sign of the dividend. */
  function CRem8(a: int): (r: int)
    ensures (a - r) % 8 == 0
    ensures a >= 0 ==> 0 <= r < 8
    ensures a < 0 ==> -8 < r <= 0
    ensures a < 0 && a % 8 != 0 ==> r < 0
  {
    if a >= 0 then a % 8 else -((-a) % 8)
  }

  /** The table index `position % 8`: in bounds for every position the
      program passes, which are never negative. A negative position that is
      not a multiple of 8 would index before the table. */
  function RowIndex(position: int): (r: int)
    ensures position >= 0 ==> 0 <= r < |Table| && r == position % |Table|
    ensures position < 0 && position % |Table| != 0 ==> r < 0
  {
    CRem8(position)
  }

  /** The remainder by 2 is determined by any even-plus-bit decomposition. */
  lemma ParityOf(x: int, h: int, bit: int)
    requires x == 2 * h + bit && 0 <= bit < 2
    ensures x % 2 == bit
  {
  }

  /** A position and its table row have the same parity. */
  lemma RowParity(position: int)
    requires position >= 0
    ensures (position % 8) % 2 == position % 2
  {
    var q, r := position / 8, position % 8;
    assert position == 8 * q + r;
    ParityOf(r, r / 2, r % 2);
    ParityOf(position, 4 * q + r / 2, r % 2);
  }

  /** The four line values `set_position_gpio` writes for `position`. */
  function SetPosition(position: int): (row: seq<bool>)
    requires position >= 0
    ensures row == Table[position % |Table|]
    ensures |row| == 4
    ensures ActiveLines(row) == if position % 2 == 0 then 1 else 2
  {
    var k := RowIndex(position);
    RowParity(position);
    RowActiveLines(k);
    Table[k]
  }

  /** The written pattern has period 8. */
  lemma PeriodEight(position: int)
    requires position >= 0
    ensures SetPosition(position + 8) == SetPosition(position)
  {
    assert (position + 8) % 8 == position % 8;
    assert RowIndex(position + 8) == RowIndex(position);
  }

  /** Consecutive positions, across the wrap from row 7 to row 0 too, differ
      in exactly one line. */
  lemma ConsecutivePositionsDifferInOneLine(position: int)
    requires position >= 0
    ensures Differences(SetPosition(position), SetPosition(position + 1)) == 1
  {
    var r := position % 8;
    assert (position + 1) % 8 == (r + 1) % 8;
    AdjacentRowsDifferInOneLine(r);
  }
}
