/**
  The process table of the dashboard: one four-cell row (pid, name, CPU,
  memory) per process sample, and the numeric key the table is ordered by,
  read back from the memory cell's text.
 */
module Rows {
  import opened Text

  /**
    One process sample as the metrics provider reports it. `cpu` is the CPU
    usage already rounded to hundredths of a percent; `memory` is the raw
    amount that the table divides by 1024 and shows in "MB".
   */
  datatype Process = Process(pid: nat, name: string, cpu: nat, memory: nat)

  /** A display row: the four text cells of one process. */
  datatype Row = Row(pid: string, name: string, cpu: string, memory: string)

  const MB_SUFFIX: string := " MB"

  /** The four cells in column order: PID, Name, CPU, Memory. */
  function Cells(r: Row): (cells: seq<string>)
    ensures |cells| == 4 && cells[3] == r.memory
  {
    [r.pid, r.name, r.cpu, r.memory]
  }

  /**
    `memory / 1024` rounded to the nearest hundredth, ties to an even last
    digit, counted in hundredths: the number that `{:.2}` prints.
   */
  function MemoryHundredths(memory: nat): (h: nat)
    ensures h * 1024 <= memory * 100 + 512
    ensures memory * 100 <= h * 1024 + 512
    ensures memory * 100 % 1024 == 512 ==> h % 2 == 0
  {
    var q, r := memory * 100 / 1024, memory * 100 % 1024;
    if r > 512 || (r == 512 && q % 2 == 1) then q + 1 else q
  }

  /**
    The sort key of a memory cell: the cell with every " MB" removed, parsed
    as a number; 0.0 when that does not parse.
   */
  function MemoryKey(cell: string): (k: real)
    ensures k >= 0.0
  {
    match ParseDecimal(RemoveAll(cell, MB_SUFFIX))
    case Some(v) => v
    case None => 0.0
  }

  /** The sort key of a row: the memory key of its fourth cell. */
  function Key(r: Row): real {
    MemoryKey(Cells(r)[3])
  }

  /** The row of one process: pid, name, CPU with a percent sign, memory in MB. */
  function BuildRow(p: Process): Row {
    Row(NatToString(p.pid), p.name, Fixed2(p.cpu) + "%", Fixed2(MemoryHundredths(p.memory)) + MB_SUFFIX)
  }

  /**
    Each cell of a built row reads back as what it shows: the pid's digits,
    the name unchanged, the CPU usage before its '%', and the memory in MB as
    the sort key.
   */
  lemma BuildRowReadsBack(p: Process)
    ensures var r := BuildRow(p);
      AllDigits(r.pid) && DigitsValue(r.pid) == p.pid &&
      r.name == p.name &&
      |r.cpu| > 0 && r.cpu[|r.cpu| - 1] == '%' &&
      ParseDecimal(r.cpu[..|r.cpu| - 1]) == Some(p.cpu as real / 100.0) &&
      Key(r) == MemoryHundredths(p.memory) as real / 100.0
  {
    NatToStringRoundTrip(p.pid);
    PercentCellRoundTrip(p.cpu);
    MemoryCellRoundTrip(MemoryHundredths(p.memory));
  }

  /** The rows of a process list, one per process and in the same order. */
  function BuildRows(ps: seq<Process>): (rows: seq<Row>)
    ensures |rows| == |ps|
    ensures forall i :: 0 <= i < |ps| ==> rows[i] == BuildRow(ps[i])
  {
    if ps == [] then [] else [BuildRow(ps[0])] + BuildRows(ps[1..])
  }

  /** A CPU cell as the table writes it parses back, without its '%', to its value. */
  lemma PercentCellRoundTrip(n: nat)
    ensures var c := Fixed2(n) + "%";
      |c| > 0 && c[|c| - 1] == '%' && ParseDecimal(c[..|c| - 1]) == Some(n as real / 100.0)
  {
    var c := Fixed2(n) + "%";
    assert c[..|c| - 1] == Fixed2(n);
    Fixed2RoundTrip(n);
  }

  /** A memory cell as the table writes it always parses back to its value. */
  lemma MemoryCellRoundTrip(h: nat)
    ensures MemoryKey(Fixed2(h) + MB_SUFFIX) == h as real / 100.0
  {
    var x := Fixed2(h);
    assert ' ' !in x by {
      var w := NatToString(h / 100);
      assert x == w + ['.'] + [DigitChar(h / 10 % 10), DigitChar(h % 10)];
      assert forall j :: 0 <= j < |w| ==> x[j] == w[j] && IsDigit(w[j]);
    }
    RemoveSuffix(x, MB_SUFFIX);
    Fixed2RoundTrip(h);
  }

  /** A memory cell whose text does not parse ranks as 0.0. */
  lemma UnparsableMemoryRanksZero(cell: string)
    requires ParseDecimal(RemoveAll(cell, MB_SUFFIX)).None?
    ensures MemoryKey(cell) == 0.0
  {
  }

  /** Rounding never reverses the order of two memory amounts. */
  lemma MemoryHundredthsMonotone(m1: nat, m2: nat)
    requires m1 <= m2
    ensures MemoryHundredths(m1) <= MemoryHundredths(m2)
  {
    if m1 < m2 {
      assert m1 * 100 + 100 <= m2 * 100;
    }
  }
}
