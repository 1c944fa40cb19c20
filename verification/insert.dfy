/**
 * The insert direction: the INSERT statement generated from a table name and the columnar
 * file's column names.
 */
module Insert {

  // ---------------------------------------------------------------------------------------------
  // Statement text
  // ---------------------------------------------------------------------------------------------

  /** `parts` with `sep` between each two consecutive elements: empty for no parts, otherwise as
      long as the parts plus one separator between each two. */
  function Join(parts: seq<string>, sep: string): (r: string)
    ensures |parts| == 0 ==> r == ""
    ensures |parts| > 0 ==> |r| + |sep| == Offset(parts, sep, |parts|)
    decreases |parts|
  {
    if |parts| == 0 then ""
    else if |parts| == 1 then parts[0]
    else
      OffsetOfTail(parts, sep, |parts|);
      parts[0] + sep + Join(parts[1..], sep)
  }

  /** Position in `Join(parts, sep)` at which `parts[i]` starts: everything before it is the
      earlier parts, each followed by one separator. */
  function Offset(parts: seq<string>, sep: string, i: nat): nat
    requires i <= |parts|
  {
    if i == 0 then 0 else Offset(parts, sep, i - 1) + |parts[i - 1]| + |sep|
  }

  lemma {:induction false} OffsetOfTail(parts: seq<string>, sep: string, i: nat)
    requires 1 <= i <= |parts|
    ensures Offset(parts, sep, i) == |parts[0]| + |sep| + Offset(parts[1..], sep, i - 1)
  {
    if i > 1 {
      OffsetOfTail(parts, sep, i - 1);
      assert parts[1..][i - 2] == parts[i - 1];
    }
  }

  lemma SliceBefore(x: string, y: string, a: nat, b: nat)
    requires a <= b <= |x|
    ensures (x + y)[a..b] == x[a..b]
  {
  }

  lemma SliceAfter(x: string, y: string, a: nat, b: nat)
    requires a <= b <= |y|
    ensures (x + y)[|x| + a..|x| + b] == y[a..b]
  {
  }

  /** Each part appears verbatim in the joined text, at its offset, in order; every part but
      the first is preceded by the separator. */
  lemma {:induction false} JoinPartAt(parts: seq<string>, sep: string, i: nat)
    requires i < |parts|
    ensures Offset(parts, sep, i) + |parts[i]| <= |Join(parts, sep)|
    ensures Join(parts, sep)[Offset(parts, sep, i)..Offset(parts, sep, i) + |parts[i]|] == parts[i]
    ensures i > 0 ==> Join(parts, sep)[Offset(parts, sep, i) - |sep|..Offset(parts, sep, i)] == sep
  {
    if |parts| == 1 {
      assert Join(parts, sep) == parts[0];
    } else {
      var head := parts[0] + sep;
      var tail := Join(parts[1..], sep);
      assert Join(parts, sep) == head + tail;
      if i == 0 {
        SliceBefore(head, tail, 0, |parts[0]|);
      } else {
        JoinPartAt(parts[1..], sep, i - 1);
        OffsetOfTail(parts, sep, i);
        var o := Offset(parts[1..], sep, i - 1);
        SliceAfter(head, tail, o, o + |parts[i]|);
        if i > 1 {
          SliceAfter(head, tail, o - |sep|, o);
        } else {
          SliceBefore(head, tail, |parts[0]|, |head|);
        }
      }
    }
  }

  /** Number of occurrences of `c` in `s`. */
  function Occurrences(c: char, s: string): nat {
    if |s| == 0 then 0 else (if s[0] == c then 1 else 0) + Occurrences(c, s[1..])
  }

  lemma {:induction false} OccurrencesConcat(c: char, a: string, b: string)
    ensures Occurrences(c, a + b) == Occurrences(c, a) + Occurrences(c, b)
  {
    if |a| == 0 {
      assert a + b == b;
    } else {
      assert (a + b)[0] == a[0];
      assert (a + b)[1..] == a[1..] + b;
      OccurrencesConcat(c, a[1..], b);
    }
  }

  /** Occurrences of `c` summed over all `parts`. */
  function TotalOccurrences(c: char, parts: seq<string>): nat {
    if |parts| == 0 then 0 else Occurrences(c, parts[0]) + TotalOccurrences(c, parts[1..])
  }

  /** Joining adds the separator's occurrences once between each two parts and nothing else. */
  lemma {:induction false} JoinOccurrences(c: char, parts: seq<string>, sep: string)
    requires |parts| > 0
    ensures Occurrences(c, Join(parts, sep))
            == TotalOccurrences(c, parts) + (|parts| - 1) * Occurrences(c, sep)
  {
    if |parts| == 1 {
      assert parts[1..] == [];
    } else {
      JoinOccurrences(c, parts[1..], sep);
      OccurrencesConcat(c, parts[0] + sep, Join(parts[1..], sep));
      OccurrencesConcat(c, parts[0], sep);
    }
  }

  /** One `?` parameter marker per column. */
  function Placeholders(n: nat): (r: seq<string>)
    ensures |r| == n
    ensures forall i :: 0 <= i < n ==> r[i] == "?"
  {
    seq(n, _ => "?")
  }

  lemma {:induction false} PlaceholderOccurrences(n: nat)
    ensures TotalOccurrences('?', Placeholders(n)) == n
  {
    if n > 0 {
      assert Placeholders(n)[1..] == Placeholders(n - 1);
      PlaceholderOccurrences(n - 1);
    }
  }

  const COLUMN_SEPARATOR: string := ", "
  const INSERT_PREFIX: string := "INSERT INTO "
  const COLUMNS_OPEN: string := " ("
  const VALUES_KEYWORD: string := ") VALUES ("
  const STATEMENT_END: string := ");"

  /** The INSERT statement for `table` with one bound parameter per column. Identifiers are
      used as given: nothing is quoted or escaped. */
  function InsertStatementText(table: string, columnNames: seq<string>): (r: string)
    ensures |INSERT_PREFIX| + |STATEMENT_END| <= |r|
    ensures r[..|INSERT_PREFIX|] == INSERT_PREFIX
    ensures r[|r| - |STATEMENT_END|..] == STATEMENT_END
  {
    INSERT_PREFIX + table + COLUMNS_OPEN + Join(columnNames, COLUMN_SEPARATOR) + VALUES_KEYWORD
      + Join(Placeholders(|columnNames|), COLUMN_SEPARATOR) + STATEMENT_END
  }

  /** Position in the statement at which the column list starts. */
  function ColumnListStart(table: string): nat {
    |INSERT_PREFIX| + |table| + |COLUMNS_OPEN|
  }

  /** Position in the statement at which the list of parameter markers starts. */
  function ValuesListStart(table: string, columnNames: seq<string>): nat {
    ColumnListStart(table) + |Join(columnNames, COLUMN_SEPARATOR)| + |VALUES_KEYWORD|
  }

  lemma {:induction false} NoOccurrence(c: char, s: string)
    requires c !in s
    ensures Occurrences(c, s) == 0
  {
    if |s| > 0 {
      assert s == [s[0]] + s[1..];
      NoOccurrence(c, s[1..]);
    }
  }

  /** The fixed words of the statement contain no `?`. */
  lemma NoMarkerInFixedWord(w: string)
    requires w == INSERT_PREFIX || w == COLUMNS_OPEN || w == VALUES_KEYWORD || w == STATEMENT_END
             || w == COLUMN_SEPARATOR
    ensures Occurrences('?', w) == 0
  {
    NoOccurrence('?', w);
  }

  /** The parts written one after the other. */
  function Concat(parts: seq<string>): string {
    if |parts| == 0 then "" else parts[0] + Concat(parts[1..])
  }

  lemma {:induction false} OccurrencesConcatAll(c: char, parts: seq<string>)
    ensures Occurrences(c, Concat(parts)) == TotalOccurrences(c, parts)
  {
    if |parts| > 0 {
      OccurrencesConcatAll(c, parts[1..]);
      OccurrencesConcat(c, parts[0], Concat(parts[1..]));
    }
  }

  /** The seven pieces the statement text is made of, in order. */
  function StatementPieces(table: string, columnNames: seq<string>): seq<string> {
    [INSERT_PREFIX, table, COLUMNS_OPEN, Join(columnNames, COLUMN_SEPARATOR), VALUES_KEYWORD,
     Join(Placeholders(|columnNames|), COLUMN_SEPARATOR), STATEMENT_END]
  }

  lemma StatementIsConcatOfPieces(table: string, columnNames: seq<string>)
    ensures Concat(StatementPieces(table, columnNames)) == InsertStatementText(table, columnNames)
  {
    var pieces := StatementPieces(table, columnNames);
    assert Concat(pieces[6..]) == STATEMENT_END;
    assert Concat(pieces[5..]) == pieces[5] + STATEMENT_END;
    assert Concat(pieces[4..]) == VALUES_KEYWORD + pieces[5] + STATEMENT_END;
    assert Concat(pieces[3..]) == pieces[3] + VALUES_KEYWORD + pieces[5] + STATEMENT_END;
    assert Concat(pieces[2..]) == COLUMNS_OPEN + pieces[3] + VALUES_KEYWORD + pieces[5] + STATEMENT_END;
  }

  /** A character's count in the statement is its count in each piece, added up. */
  lemma {:induction false} OccurrencesByPiece(c: char, table: string, columnNames: seq<string>)
    ensures Occurrences(c, InsertStatementText(table, columnNames))
            == Occurrences(c, INSERT_PREFIX) + Occurrences(c, table) + Occurrences(c, COLUMNS_OPEN)
               + Occurrences(c, Join(columnNames, COLUMN_SEPARATOR)) + Occurrences(c, VALUES_KEYWORD)
               + Occurrences(c, Join(Placeholders(|columnNames|), COLUMN_SEPARATOR)) + Occurrences(c, STATEMENT_END)
  {
    var pieces := StatementPieces(table, columnNames);
    StatementIsConcatOfPieces(table, columnNames);
    OccurrencesConcatAll(c, pieces);
    assert pieces[6..][1..] == pieces[7..];
    assert TotalOccurrences(c, pieces[6..]) == Occurrences(c, pieces[6]) + TotalOccurrences(c, pieces[7..]);
    assert pieces[5..][1..] == pieces[6..];
    assert TotalOccurrences(c, pieces[5..]) == Occurrences(c, pieces[5]) + TotalOccurrences(c, pieces[6..]);
    assert pieces[4..][1..] == pieces[5..];
    assert TotalOccurrences(c, pieces[4..]) == Occurrences(c, pieces[4]) + TotalOccurrences(c, pieces[5..]);
    assert pieces[3..][1..] == pieces[4..];
    assert TotalOccurrences(c, pieces[3..]) == Occurrences(c, pieces[3]) + TotalOccurrences(c, pieces[4..]);
    assert pieces[2..][1..] == pieces[3..];
    assert TotalOccurrences(c, pieces[2..]) == Occurrences(c, pieces[2]) + TotalOccurrences(c, pieces[3..]);
    assert pieces[1..][1..] == pieces[2..];
    assert TotalOccurrences(c, pieces[1..]) == Occurrences(c, pieces[1]) + TotalOccurrences(c, pieces[2..]);
    assert pieces[0..][1..] == pieces[1..];
    assert TotalOccurrences(c, pieces[0..]) == Occurrences(c, pieces[0]) + TotalOccurrences(c, pieces[1..]);
    assert pieces[0..] == pieces;
  }

  /** The statement carries one `?` per column beyond the question marks that occur in the
      identifiers themselves. */
  lemma {:induction false} InsertStatementPlaceholders(table: string, columnNames: seq<string>)
    ensures Occurrences('?', InsertStatementText(table, columnNames))
            == |columnNames| + Occurrences('?', table) + TotalOccurrences('?', columnNames)
  {
    var cols := Join(columnNames, COLUMN_SEPARATOR);
    var values := Join(Placeholders(|columnNames|), COLUMN_SEPARATOR);
    NoMarkerInFixedWord(INSERT_PREFIX);
    NoMarkerInFixedWord(COLUMNS_OPEN);
    NoMarkerInFixedWord(VALUES_KEYWORD);
    NoMarkerInFixedWord(STATEMENT_END);
    NoMarkerInFixedWord(COLUMN_SEPARATOR);
    if |columnNames| > 0 {
      JoinOccurrences('?', columnNames, COLUMN_SEPARATOR);
      JoinOccurrences('?', Placeholders(|columnNames|), COLUMN_SEPARATOR);
      PlaceholderOccurrences(|columnNames|);
    }
    OccurrencesByPiece('?', table, columnNames);
  }

  /** When no identifier contains a `?`, the statement has exactly one parameter marker per
      column, so one bound buffer column per parquet column matches it. */
  lemma {:induction false} PlaceholderPerColumn(table: string, columnNames: seq<string>)
    requires Occurrences('?', table) == 0
    requires forall i :: 0 <= i < |columnNames| ==> Occurrences('?', columnNames[i]) == 0
    ensures Occurrences('?', InsertStatementText(table, columnNames)) == |columnNames|
  {
    InsertStatementPlaceholders(table, columnNames);
    NoneInAny('?', columnNames);
  }

  lemma {:induction false} NoneInAny(c: char, parts: seq<string>)
    requires forall i :: 0 <= i < |parts| ==> Occurrences(c, parts[i]) == 0
    ensures TotalOccurrences(c, parts) == 0
  {
    if |parts| > 0 {
      NoneInAny(c, parts[1..]);
    }
  }

  /** The statement starts with `INSERT INTO ` followed by the table name, verbatim. */
  lemma {:induction false} InsertStatementTableVerbatim(table: string, columnNames: seq<string>)
    ensures var text := InsertStatementText(table, columnNames);
            && |INSERT_PREFIX| + |table| <= |text|
            && text[..|INSERT_PREFIX|] == INSERT_PREFIX
            && text[|INSERT_PREFIX|..|INSERT_PREFIX| + |table|] == table
  {
    var x2 := INSERT_PREFIX + table;
    var x3 := x2 + COLUMNS_OPEN;
    var x4 := x3 + Join(columnNames, COLUMN_SEPARATOR);
    var x5 := x4 + VALUES_KEYWORD;
    var x6 := x5 + Join(Placeholders(|columnNames|), COLUMN_SEPARATOR);
    var n := |INSERT_PREFIX| + |table|;
    SliceBefore(x6, STATEMENT_END, 0, n);
    SliceBefore(x5, Join(Placeholders(|columnNames|), COLUMN_SEPARATOR), 0, n);
    SliceBefore(x4, VALUES_KEYWORD, 0, n);
    SliceBefore(x3, Join(columnNames, COLUMN_SEPARATOR), 0, n);
    SliceBefore(x2, COLUMNS_OPEN, 0, n);
    assert x2[..|INSERT_PREFIX|] == INSERT_PREFIX;
    SliceAfter(INSERT_PREFIX, table, 0, |table|);
  }

  /** Every column name appears verbatim in the statement at its place in the column list,
      in the order given, the names separated by `, `. */
  lemma {:induction false} InsertStatementColumnVerbatim(table: string, columnNames: seq<string>, i: nat)
    requires i < |columnNames|
    ensures var text := InsertStatementText(table, columnNames);
            var start := ColumnListStart(table) + Offset(columnNames, COLUMN_SEPARATOR, i);
            && start + |columnNames[i]| <= |text|
            && text[start..start + |columnNames[i]|] == columnNames[i]
  {
    ColumnListInStatement(table, columnNames);
    JoinPartAt(columnNames, COLUMN_SEPARATOR, i);
    ComposeSlices(InsertStatementText(table, columnNames), Join(columnNames, COLUMN_SEPARATOR),
                  columnNames[i], ColumnListStart(table), Offset(columnNames, COLUMN_SEPARATOR, i));
  }

  /** A piece found inside a slice of `text` is found in `text`, at the sum of the offsets. */
  lemma {:induction false} ComposeSlices(text: string, outer: string, inner: string, c: nat, o: nat)
    requires c + |outer| <= |text| && text[c..c + |outer|] == outer
    requires o + |inner| <= |outer| && outer[o..o + |inner|] == inner
    ensures c + o + |inner| <= |text| && text[c + o..c + o + |inner|] == inner
  {
    SliceOfSlice(text, c, c + |outer|, o, o + |inner|);
  }

  /** The table name is followed by ` (` and then by the joined column names, unchanged. */
  lemma {:induction false} ColumnListInStatement(table: string, columnNames: seq<string>)
    ensures var cols := Join(columnNames, COLUMN_SEPARATOR);
            var text := InsertStatementText(table, columnNames);
            && ColumnListStart(table) + |cols| <= |text|
            && text[ColumnListStart(table)..ColumnListStart(table) + |cols|] == cols
            && text[|INSERT_PREFIX| + |table|..ColumnListStart(table)] == COLUMNS_OPEN
  {
    var cols := Join(columnNames, COLUMN_SEPARATOR);
    var values := Join(Placeholders(|columnNames|), COLUMN_SEPARATOR);
    var head := INSERT_PREFIX + table + COLUMNS_OPEN;
    SliceOfSecond(head, cols, VALUES_KEYWORD, values, STATEMENT_END, 0, |cols|);
    assert cols[0..|cols|] == cols;
    assert |head| == ColumnListStart(table);
    SliceOfSecond(INSERT_PREFIX + table, COLUMNS_OPEN, cols, VALUES_KEYWORD + values, STATEMENT_END, 0, |COLUMNS_OPEN|);
    assert COLUMNS_OPEN[0..|COLUMNS_OPEN|] == COLUMNS_OPEN;
    assert INSERT_PREFIX + table + COLUMNS_OPEN + cols + (VALUES_KEYWORD + values) + STATEMENT_END
           == InsertStatementText(table, columnNames);
  }

  /** After the column list comes `) VALUES (`, then the markers `?, ?, …`, one per column,
      and then `);` closes the statement. */
  lemma {:induction false} ValuesListInStatement(table: string, columnNames: seq<string>)
    ensures ValuesListStart(table, columnNames) + |Join(Placeholders(|columnNames|), COLUMN_SEPARATOR)| + |STATEMENT_END|
            == |InsertStatementText(table, columnNames)|
    ensures InsertStatementText(table, columnNames)[ValuesListStart(table, columnNames) - |VALUES_KEYWORD|..ValuesListStart(table, columnNames)]
            == VALUES_KEYWORD
    ensures InsertStatementText(table, columnNames)[ValuesListStart(table, columnNames)..ValuesListStart(table, columnNames) + |Join(Placeholders(|columnNames|), COLUMN_SEPARATOR)|]
            == Join(Placeholders(|columnNames|), COLUMN_SEPARATOR)
  {
    var values := Join(Placeholders(|columnNames|), COLUMN_SEPARATOR);
    var upToColumns := INSERT_PREFIX + table + COLUMNS_OPEN + Join(columnNames, COLUMN_SEPARATOR);
    var x := upToColumns + VALUES_KEYWORD;
    assert |x| == ValuesListStart(table, columnNames);
    SliceBefore(x + values, STATEMENT_END, |x|, |x| + |values|);
    SliceAfter(x, values, 0, |values|);
    assert values[0..|values|] == values;
    SliceBefore(x + values, STATEMENT_END, |upToColumns|, |x|);
    SliceBefore(x, values, |upToColumns|, |x|);
    SliceAfter(upToColumns, VALUES_KEYWORD, 0, |VALUES_KEYWORD|);
    assert VALUES_KEYWORD[0..|VALUES_KEYWORD|] == VALUES_KEYWORD;
  }

  lemma SliceOfSlice(s: string, a: nat, b: nat, c: nat, d: nat)
    requires a <= b <= |s| && c <= d <= b - a
    ensures s[a..b][c..d] == s[a + c..a + d]
  {
    assert |s[a..b][c..d]| == |s[a + c..a + d]|;
    forall k | 0 <= k < d - c
      ensures s[a..b][c..d][k] == s[a + c..a + d][k]
    {
    }
  }

  lemma {:induction false} SliceOfSecond(x: string, y: string, z1: string, z2: string, z3: string, a: nat, b: nat)
    requires a <= b <= |y|
    ensures |x| + b <= |x + y + z1 + z2 + z3|
    ensures (x + y + z1 + z2 + z3)[|x| + a..|x| + b] == y[a..b]
  {
    SliceBefore(x + y + z1 + z2, z3, |x| + a, |x| + b);
    SliceBefore(x + y + z1, z2, |x| + a, |x| + b);
    SliceBefore(x + y, z1, |x| + a, |x| + b);
    SliceAfter(x, y, a, b);
  }

  /** A two-column example with its exact text. */
  /** A file without columns still yields a complete statement, with two empty lists. */
  lemma NoColumnsExample()
    ensures InsertStatementText("t", []) == "INSERT INTO t () VALUES ();"
  {
    assert Placeholders(0) == [];
  }

  lemma InsertStatementExample()
    ensures InsertStatementText("t", ["a", "b"]) == "INSERT INTO t (a, b) VALUES (?, ?);"
  {
    assert Placeholders(2) == ["?", "?"];
    assert ["a", "b"][1..] == ["b"];
    assert ["?", "?"][1..] == ["?"];
    assert Join(["a", "b"], COLUMN_SEPARATOR) == "a, b";
    assert Join(["?", "?"], COLUMN_SEPARATOR) == "?, ?";
  }
}
