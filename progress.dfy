/** The sender's progress reading after each file of a send. The client
    computes it as `(index + 1 / totalFiles) * 100`; the reading that formula
    was evidently meant to give is `(index + 1) / totalFiles * 100`. Both are
    stated here over exact reals. */
module Progress {

  /** The formula as written: `/` binds tighter than `+`, so the sum is
      `index + (1 / totalFiles)`. */
  function SenderProgressAsWritten(index: nat, totalFiles: nat): (p: real)
    requires index < totalFiles
    ensures index as real * 100.0 < p <= (index + 1) as real * 100.0
  {
    (index as real + 1.0 / totalFiles as real) * 100.0
  }

  /** As written, the reading after the second of two files is 150 percent. */
  lemma AsWrittenOvershoots()
    ensures SenderProgressAsWritten(1, 2) == 150.0
  {
  }

  /** As written, every file after the first leaves the reading above 100
      percent. */
  lemma AsWrittenExceedsHundred(index: nat, totalFiles: nat)
    requires 1 <= index < totalFiles
    ensures SenderProgressAsWritten(index, totalFiles) > 100.0
  {
  }

  /** The evidently intended reading: the share of files already sent. */
  function SenderProgress(index: nat, totalFiles: nat): (p: real)
    requires index < totalFiles
    ensures 0.0 < p <= 100.0
    ensures p == 100.0 <==> index + 1 == totalFiles
  {
    var n := totalFiles as real;
    var done := (index + 1) as real;
    var q := done / n;
    assert q * n == done;
    assert 0.0 < q;
    assert q <= 1.0;
    assert q == 1.0 <==> done == n;
    q * 100.0
  }

  /** The intended reading never decreases from one file to a later one. */
  lemma SenderProgressMonotonic(i: nat, j: nat, totalFiles: nat)
    requires i <= j < totalFiles
    ensures SenderProgress(i, totalFiles) <= SenderProgress(j, totalFiles)
  {
    var n := totalFiles as real;
    assert (i + 1) as real / n <= (j + 1) as real / n;
  }
}
