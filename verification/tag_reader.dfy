/**
 * The tag reader's line filter (main.py, `main`): a stripped serial line is a
 * card identifier unless it is empty or is one of the reader module's status
 * messages.
 */
module TagReader {
  import opened Wrappers
  import opened Text

  /** The prefixes of the status lines the reader module prints. */
  const StatusPrefixes: seq<string> := ["RFID", "Module", "Connection"]

  /** True when the stripped line `data` is treated as a scanned card identifier. */
  predicate IsCardScan(data: string)
  {
    data != [] && !StartsWithAny(data, StatusPrefixes)
  }

  /**
   * The card identifier a raw serial line carries, if any. The identifier is
   * what is left of the line once the spaces at its two ends are cut off; the
   * line carries one exactly when that is non-empty and starts with none of the
   * status prefixes.
   */
  function CardOf(line: string): (r: Option<string>)
    ensures r.Some? ==> Trimmed(r.value) && exists i :: CutAt(line, i, r.value)
    ensures r.Some? <==> Strip(line) != [] &&
                         forall j :: 0 <= j < |StatusPrefixes| ==> !StartsWith(Strip(line), StatusPrefixes[j])
  {
    var data := Strip(line);
    StripCutsSpaces(line);
    StartsWithAnyIff(data, StatusPrefixes);
    if IsCardScan(data) then Some(data) else None
  }

  /**
   * The filter spelled out: a line is a scan exactly when it is non-empty and
   * starts with none of the three status prefixes.
   */
  lemma IsCardScanIff(data: string)
    ensures IsCardScan(data) <==>
              data != [] && !StartsWith(data, "RFID") && !StartsWith(data, "Module")
              && !StartsWith(data, "Connection")
  {
  }

  /** Whatever follows a status prefix, the line is a status line and never a scan. */
  lemma StatusLinesAreNotScans(j: int, rest: string)
    requires 0 <= j < |StatusPrefixes|
    ensures !IsCardScan(StatusPrefixes[j] + rest)
  {
  }

  /** An upper-case hexadecimal digit (card identifiers are assumed to be printed in upper-case hex). */
  predicate IsHexDigit(c: char)
  {
    ('0' <= c <= '9') || ('A' <= c <= 'F')
  }

  /**
   * A non-empty identifier of hexadecimal digits always passes the filter,
   * even one starting with 'C': "Connection" continues with a letter that is
   * not a hexadecimal digit.
   */
  lemma HexIdentifiersAreScans(data: string)
    requires data != []
    requires forall k :: 0 <= k < |data| ==> IsHexDigit(data[k])
    ensures IsCardScan(data)
  {
    IsCardScanIff(data);
    assert IsHexDigit(data[0]);
    assert "RFID"[0] == 'R' && "Module"[0] == 'M' && "Connection"[1] == 'o';
    assert !StartsWith(data, "RFID");
    assert !StartsWith(data, "Module");
    if |data| >= 2 {
      assert IsHexDigit(data[1]);
    }
    assert !StartsWith(data, "Connection");
  }
}
