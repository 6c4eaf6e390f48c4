/**
 * The parts of `load_state_data` that are not file I/O: the `.csv` filter
 * over the directory listing, the side-by-side concatenation of the files'
 * column labels, and the renaming of every column (drop each `STHPI`, then
 * strip surrounding whitespace).
 */
module Loader {
  import opened Results

  /** A directory entry: its name and the data column labels reading it as CSV would give. */
  datatype DirEntry = DirEntry(name: string, columns: seq<string>)

  /** `pd.concat` raises `ValueError` when it is given no frames. */
  datatype LoadError = NoObjectsToConcatenate

  const CsvSuffix := ".csv"
  const Token := "STHPI"

  /** `name.endswith('.csv')`, case-sensitive. */
  predicate IsCsvName(name: string)
    ensures IsCsvName(name) <==> exists stem :: name == stem + CsvSuffix
  {
    var ends := |name| >= |CsvSuffix| && name[|name| - |CsvSuffix|..] == CsvSuffix;
    assert ends ==> name == name[..|name| - |CsvSuffix|] + CsvSuffix;
    ends
  }

  /** The column labels of the entries the loop reads, in listing order. */
  function CsvFrames(listing: seq<DirEntry>): (frames: seq<seq<string>>)
    ensures frames == [] <==> forall k :: 0 <= k < |listing| ==> !IsCsvName(listing[k].name)
    ensures forall f :: f in frames <==> exists k :: 0 <= k < |listing| && IsCsvName(listing[k].name) && listing[k].columns == f
  {
    if |listing| == 0 then []
    else
      var init, last := listing[..|listing| - 1], listing[|listing| - 1];
      var frames := CsvFrames(init) + (if IsCsvName(last.name) then [last.columns] else []);
      assert forall k :: 0 <= k < |init| ==> init[k] == listing[k];
      frames
  }

  /** The column labels of `pd.concat(frames, axis=1)`: every frame's labels, frame after frame. */
  function ConcatColumns(frames: seq<seq<string>>): (columns: seq<string>)
    ensures forall c :: c in columns <==> exists f :: f in frames && c in f
  {
    if |frames| == 0 then []
    else
      var init := frames[..|frames| - 1];
      assert forall f :: f in frames <==> f in init || f == frames[|frames| - 1];
      ConcatColumns(init) + frames[|frames| - 1]
  }

  /** An occurrence of the token starts at position `i` of `s`. */
  predicate OccursAt(s: string, i: int) {
    0 <= i && i + |Token| <= |s| && s[i..i + |Token|] == Token
  }

  predicate ContainsToken(s: string) {
    exists i :: 0 <= i <= |s| && OccursAt(s, i)
  }

  /** Occurrences after the first character are the occurrences in the rest, one position earlier. */
  lemma OccursAtShift(s: string, i: int)
    requires |s| > 0 && 1 <= i
    ensures OccursAt(s, i) <==> OccursAt(s[1..], i - 1)
  {
    if i + |Token| <= |s| {
      assert s[1..][i - 1..i - 1 + |Token|] == s[i..i + |Token|];
    }
  }

  /**
   * `s.replace('STHPI', '')`: scans left to right and drops each occurrence
   * it meets, resuming after it.
   */
  function RemoveToken(s: string): (r: string)
    ensures |r| <= |s| && (|s| - |r|) % |Token| == 0
  {
    if |s| == 0 then s
    else if OccursAt(s, 0) then RemoveToken(s[|Token|..])
    else [s[0]] + RemoveToken(s[1..])
  }

  /** The token occurs after the first character exactly when it occurs in the rest. */
  lemma ContainsTokenShift(s: string)
    requires |s| > 0 && !OccursAt(s, 0)
    ensures ContainsToken(s) <==> ContainsToken(s[1..])
  {
    if ContainsToken(s) {
      var i :| 0 <= i <= |s| && OccursAt(s, i);
      OccursAtShift(s, i);
    }
    if ContainsToken(s[1..]) {
      var i :| 0 <= i <= |s[1..]| && OccursAt(s[1..], i);
      OccursAtShift(s, i + 1);
    }
  }

  /** The removal shortens a name exactly when the token occurs in it. */
  lemma {:induction false} RemoveTokenShortensExactlyWhenPresent(s: string)
    ensures ContainsToken(s) <==> |RemoveToken(s)| < |s|
  {
    if |s| > 0 {
      if OccursAt(s, 0) {
        assert ContainsToken(s);
      } else {
        ContainsTokenShift(s);
        RemoveTokenShortensExactlyWhenPresent(s[1..]);
      }
    }
  }

  /** The characters `str.isspace` accepts, which `str.strip()` removes. */
  predicate IsSpace(c: char)
    ensures IsSpace(c) ==> !('0' <= c <= '9' || 'A' <= c <= 'Z' || 'a' <= c <= 'z')
  {
    var n := c as int;
    n == 0x20 || 0x09 <= n <= 0x0D || 0x1C <= n <= 0x1F || n == 0x85 || n == 0xA0
    || n == 0x1680 || 0x2000 <= n <= 0x200A || n == 0x2028 || n == 0x2029
    || n == 0x202F || n == 0x205F || n == 0x3000
  }

  predicate AllSpace(s: string) {
    forall i :: 0 <= i < |s| ==> IsSpace(s[i])
  }

  /** Nothing left for `strip` to remove. */
  predicate Trimmed(s: string) {
    |s| == 0 || (!IsSpace(s[0]) && !IsSpace(s[|s| - 1]))
  }

  function LeadingSpaces(s: string): (n: nat)
    ensures n <= |s|
    ensures forall i :: 0 <= i < n ==> IsSpace(s[i])
    ensures n < |s| ==> !IsSpace(s[n])
  {
    if |s| > 0 && IsSpace(s[0]) then 1 + LeadingSpaces(s[1..]) else 0
  }

  function TrailingSpaces(s: string): (n: nat)
    ensures n <= |s|
    ensures forall i :: |s| - n <= i < |s| ==> IsSpace(s[i])
    ensures n < |s| ==> !IsSpace(s[|s| - n - 1])
  {
    if |s| > 0 && IsSpace(s[|s| - 1]) then 1 + TrailingSpaces(s[..|s| - 1]) else 0
  }

  /**
   * `s.strip()`: what is left after removing the whitespace at both ends;
   * it is a slice of `s` with only whitespace around it.
   */
  function Strip(s: string): (r: string)
    ensures Trimmed(r)
    ensures exists i :: 0 <= i <= |s| - |r| && AllSpace(s[..i]) && s[i..i + |r|] == r && AllSpace(s[i + |r|..])
  {
    var i := LeadingSpaces(s);
    var t := s[i..];
    var n := TrailingSpaces(t);
    var r := t[..|t| - n];
    assert s[i..i + |r|] == r;
    assert AllSpace(s[..i]);
    assert AllSpace(s[i + |r|..]) by {
      assert s[i + |r|..] == t[|t| - n..];
    }
    r
  }

  lemma {:induction false} LeadingSpacesOf(a: string, m: string)
    requires AllSpace(a) && (|m| == 0 || !IsSpace(m[0]))
    ensures LeadingSpaces(a + m) == |a|
  {
    if |a| > 0 {
      assert (a + m)[1..] == a[1..] + m;
      LeadingSpacesOf(a[1..], m);
    }
  }

  lemma {:induction false} TrailingSpacesOf(m: string, b: string)
    requires AllSpace(b) && (|m| == 0 || !IsSpace(m[|m| - 1]))
    ensures TrailingSpaces(m + b) == |b|
  {
    if |b| > 0 {
      assert (m + b)[..|m + b| - 1] == m + b[..|b| - 1];
      TrailingSpacesOf(m, b[..|b| - 1]);
    }
  }

  /** Whitespace around a trimmed string is exactly what `strip` takes away. */
  lemma StripSurrounding(a: string, m: string, b: string)
    requires AllSpace(a) && Trimmed(m) && AllSpace(b)
    ensures Strip(a + m + b) == m
  {
    if |m| == 0 {
      assert a + m + b == (a + b) + "";
      LeadingSpacesOf(a + b, "");
    } else {
      assert a + m + b == a + (m + b);
      LeadingSpacesOf(a, m + b);
      assert (a + m + b)[|a|..] == m + b;
      TrailingSpacesOf(m, b);
    }
  }

  /** Stripping twice is stripping once. */
  lemma StripIdempotent(s: string)
    ensures Strip(Strip(s)) == Strip(s)
  {
    StripSurrounding("", Strip(s), "");
    assert "" + Strip(s) + "" == Strip(s);
  }

  /** The name `merged.columns.str.replace('STHPI', '').str.strip()` gives one column. */
  function NormaliseColumn(name: string): (r: string)
    ensures Trimmed(r) && |r| <= |name|
  {
    Strip(RemoveToken(name))
  }

  /** Every column renamed, position by position. */
  function NormaliseColumns(columns: seq<string>): (r: seq<string>)
    ensures |r| == |columns|
    ensures forall i :: 0 <= i < |columns| ==> r[i] == NormaliseColumn(columns[i])
  {
    if |columns| == 0 then [] else [NormaliseColumn(columns[0])] + NormaliseColumns(columns[1..])
  }

  /** A string without the token passes through the removal unchanged. */
  lemma {:induction false} RemoveTokenKeepsTokenFree(s: string)
    requires !ContainsToken(s)
    ensures RemoveToken(s) == s
  {
    if |s| > 0 {
      assert !OccursAt(s, 0);
      ContainsTokenShift(s);
      RemoveTokenKeepsTokenFree(s[1..]);
    }
  }

  /** The removal is a single pass: the two halves of an outer occurrence can meet and form a new one. */
  lemma RemoveTokenSinglePass()
    ensures RemoveToken("STSTHPIHPI") == "STHPI"
  {
    var tail := "HPI";
    RemoveTokenKeepsTokenFree(tail);
    DropsLeadingToken(tail);
    var s1 := "T" + Token + tail;
    assert s1[0..|Token|][0] != Token[0];
    KeepsLeadingChar(s1);
    assert s1[1..] == Token + tail;
    var s0 := "S" + s1;
    assert s0[0..|Token|][2] != Token[2];
    KeepsLeadingChar(s0);
    assert s0[1..] == s1;
    assert s0 == "STSTHPIHPI";
  }

  lemma DropsLeadingToken(rest: string)
    ensures RemoveToken(Token + rest) == RemoveToken(rest)
  {
    assert (Token + rest)[..|Token|] == Token && (Token + rest)[|Token|..] == rest;
  }

  lemma KeepsLeadingChar(s: string)
    requires |s| > 0 && !OccursAt(s, 0)
    ensures RemoveToken(s) == [s[0]] + RemoveToken(s[1..])
  {
  }

  /**
   * A state series label: a trimmed code followed by the token and then only
   * whitespace loses the token and the whitespace and keeps the code, provided
   * no occurrence of the token starts inside the code.
   */
  lemma {:induction false} NormaliseSeriesLabel(code: string, pad: string)
    requires Trimmed(code) && AllSpace(pad)
    requires forall i :: 0 <= i < |code| ==> !OccursAt(code + Token, i)
    ensures NormaliseColumn(code + Token + pad) == code
  {
    RemoveTokenAfterCode(code, pad);
    StripSurrounding("", code, pad);
    assert "" + code + pad == code + pad;
  }

  /** Whitespace holds no occurrence of the token, so the removal keeps it. */
  lemma RemoveTokenKeepsSpaces(pad: string)
    requires AllSpace(pad)
    ensures RemoveToken(pad) == pad
  {
    assert !ContainsToken(pad) by {
      forall i | 0 <= i <= |pad|
        ensures !OccursAt(pad, i)
      {
        if i < |pad| {
          assert IsSpace(pad[i]);
        }
      }
    }
    RemoveTokenKeepsTokenFree(pad);
  }

  /**
   * The removal at the first occurrence: everything in front of it is kept,
   * the occurrence is dropped, and the scan goes on after it. With
   * `RemoveTokenKeepsTokenFree` this determines `RemoveToken` on every string.
   */
  lemma {:induction false} RemoveTokenAtFirstOccurrence(code: string, rest: string)
    requires forall i :: 0 <= i < |code| ==> !OccursAt(code + Token, i)
    ensures RemoveToken(code + Token + rest) == code + RemoveToken(rest)
    decreases |code|
  {
    if |code| == 0 {
      assert code + Token + rest == Token + rest;
      DropsLeadingToken(rest);
    } else {
      var s := code + Token + rest;
      var tail := code[1..];
      assert s[..|Token|] == (code + Token)[..|Token|];
      assert !OccursAt(code + Token, 0);
      assert !OccursAt(s, 0);
      forall i | 0 <= i < |tail|
        ensures !OccursAt(tail + Token, i)
      {
        assert (code + Token)[1..] == tail + Token;
        OccursAtShift(code + Token, i + 1);
        assert !OccursAt(code + Token, i + 1);
      }
      assert s[1..] == tail + Token + rest;
      RemoveTokenAtFirstOccurrence(tail, rest);
      assert code + RemoveToken(rest) == [s[0]] + (tail + RemoveToken(rest));
    }
  }

  /** A code followed by the token and whitespace loses only the token. */
  lemma RemoveTokenAfterCode(code: string, pad: string)
    requires AllSpace(pad)
    requires forall i :: 0 <= i < |code| ==> !OccursAt(code + Token, i)
    ensures RemoveToken(code + Token + pad) == code + pad
  {
    RemoveTokenAtFirstOccurrence(code, pad);
    RemoveTokenKeepsSpaces(pad);
  }

  /** The documented example: `"CASTHPI "` becomes `"CA"`. */
  lemma CaliforniaLabel()
    ensures NormaliseColumn("CASTHPI ") == "CA"
  {
    var code := "CA";
    forall i | 0 <= i < |code|
      ensures !OccursAt(code + Token, i)
    {
      assert (code + Token)[i] != 'S';
    }
    assert code + Token + " " == "CASTHPI ";
    NormaliseSeriesLabel(code, " ");
  }

  /** Only names ending in the lower-case `.csv` are read. */
  lemma CsvNameExamples()
    ensures IsCsvName("CASTHPI.csv") && IsCsvName(".csv")
    ensures !IsCsvName("CASTHPI.CSV") && !IsCsvName("README.md") && !IsCsvName("csv")
  {
    assert "CASTHPI.csv"[7..] == ".csv";
    assert "CASTHPI.CSV"[7..] != ".csv" by { assert "CASTHPI.CSV"[7..][1] == 'C'; }
    assert "README.md"[5..] != ".csv" by { assert "README.md"[5..][0] == 'E'; }
  }

  /**
   * The column labels `load_state_data` gives its merged table: it fails when
   * no entry is a `.csv` file, and otherwise renames the concatenated labels
   * of the `.csv` entries, in listing order.
   */
  method LoadStateColumns(listing: seq<DirEntry>) returns (r: Result<seq<string>, LoadError>)
    ensures r.Err? <==> forall k :: 0 <= k < |listing| ==> !IsCsvName(listing[k].name)
    ensures r.Ok? ==> r.value == NormaliseColumns(ConcatColumns(CsvFrames(listing)))
  {
    var frames: seq<seq<string>> := [];
    var i := 0;
    while i < |listing|
      invariant 0 <= i <= |listing|
      invariant frames == CsvFrames(listing[..i])
    {
      if IsCsvName(listing[i].name) {
        frames := frames + [listing[i].columns];
      }
      assert listing[..i + 1][..i] == listing[..i];
      i := i + 1;
    }
    assert listing[..i] == listing;
    if frames == [] {
      return Err(NoObjectsToConcatenate);
    }
    var merged := ConcatColumns(frames);
    return Ok(NormaliseColumns(merged));
  }

  /** Every label of the merged table is the renamed label of a column of some `.csv` entry. */
  lemma LoadedColumnsComeFromCsvFiles(listing: seq<DirEntry>, c: string)
    requires c in ConcatColumns(CsvFrames(listing))
    ensures exists k :: 0 <= k < |listing| && IsCsvName(listing[k].name) && c in listing[k].columns
  {
    var f :| f in CsvFrames(listing) && c in f;
  }
}
