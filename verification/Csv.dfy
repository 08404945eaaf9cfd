/** One row of comma-separated values (section 2 of RFC 4180), read character by character. */
module Csv {
  import opened Splitting

  const QUOTE: char := '"'

  /** The fields of the rest of a row, given the open field and whether it is inside quotes. */
  function Fields(s: string, field: string, inQuotes: bool): (r: seq<string>)
    ensures r != []
    decreases |s|
  {
    if s == "" then [field]
    else if s[0] == QUOTE then
      if !inQuotes then
        if field != "" then Fields(s[1..], field + [QUOTE], false) else Fields(s[1..], field, true)
      else if |s| > 1 && s[1] == QUOTE then Fields(s[2..], field + [QUOTE], true)
      else Fields(s[1..], field, false)
    else if s[0] == ',' && !inQuotes then [field] + Fields(s[1..], "", false)
    else Fields(s[1..], field + [s[0]], inQuotes)
  }

  // ---------------------------------------------------------------- rows that can be written

  /** Quotes doubled. */
  function Doubled(f: string): string {
    if f == "" then "" else (if f[0] == QUOTE then [QUOTE, QUOTE] else [f[0]]) + Doubled(f[1..])
  }

  function Quoted(f: string): string {
    [QUOTE] + Doubled(f) + [QUOTE]
  }

  /** A field that can stand as it is. */
  predicate BareOk(f: string) {
    ',' !in f && (f == "" || f[0] != QUOTE)
  }

  predicate Spells(piece: string, f: string) {
    piece == Quoted(f) || (piece == f && BareOk(f))
  }

  lemma {:induction false} InsideQuotes(f: string, field: string, rest: string)
    requires rest == "" || rest[0] != QUOTE
    ensures Fields(Doubled(f) + [QUOTE] + rest, field, true) == Fields(rest, field + f, false)
    decreases |f|
  {
    var s := Doubled(f) + [QUOTE] + rest;
    if f == "" {
      assert s[0] == QUOTE && s[1..] == rest && field + f == field;
      assert |s| > 1 ==> s[1] == rest[0];
    } else {
      var head := if f[0] == QUOTE then [QUOTE, QUOTE] else [f[0]];
      var tail := Doubled(f[1..]) + [QUOTE] + rest;
      assert s == head + tail;
      assert s[|head|..] == tail && s[0] == head[0];
      assert f[0] == QUOTE ==> s[1] == head[1];
      InsideQuotes(f[1..], field + [f[0]], rest);
      assert field + f == (field + [f[0]]) + f[1..];
    }
  }

  lemma {:induction false} OutsideQuotes(f: string, field: string, rest: string)
    requires ',' !in f && (field != "" || BareOk(f))
    ensures Fields(f + rest, field, false) == Fields(rest, field + f, false)
    decreases |f|
  {
    if f == "" {
      assert f + rest == rest && field + f == field;
    } else {
      assert (f + rest)[0] == f[0] && (f + rest)[1..] == f[1..] + rest;
      assert field + f == (field + [f[0]]) + f[1..];
      OutsideQuotes(f[1..], field + [f[0]], rest);
    }
  }

  lemma SpelledField(piece: string, f: string, rest: string)
    requires Spells(piece, f) && (rest == "" || rest[0] == ',')
    ensures Fields(piece + rest, "", false) == Fields(rest, f, false)
  {
    assert "" + f == f;
    if piece == Quoted(f) {
      var s := piece + rest;
      assert s[0] == QUOTE && s[1..] == Doubled(f) + [QUOTE] + rest;
      InsideQuotes(f, "", rest);
    } else {
      OutsideQuotes(f, "", rest);
    }
  }

  /** Whatever way the fields of a row are spelled, reading the row gives back exactly those fields. */
  lemma {:induction false} RowReadBack(pieces: seq<string>, fields: seq<string>)
    requires fields != [] && |pieces| == |fields|
    requires forall i | 0 <= i < |fields| :: Spells(pieces[i], fields[i])
    ensures Fields(Join(pieces, ","), "", false) == fields
    decreases |fields|
  {
    hide Spells;
    if |fields| == 1 {
      SpelledField(pieces[0], fields[0], "");
      assert pieces[0] + "" == pieces[0];
    } else {
      var rest := "," + Join(pieces[1..], ",");
      assert Join(pieces, ",") == pieces[0] + rest;
      SpelledField(pieces[0], fields[0], rest);
      assert rest[1..] == Join(pieces[1..], ",");
      RowReadBack(pieces[1..], fields[1..]);
      assert fields == [fields[0]] + fields[1..];
    }
  }

  /** A row with a quoted comma and a quoted quote, an empty field, and a quote inside a bare field. */
  lemma RowSpelled()
    ensures Fields("\"a,\"\"b\",,c\"d", "", false) == ["a,\"b", "", "c\"d"]
  {
    hide Fields;
    var pieces, fields := ["\"a,\"\"b\"", "", "c\"d"], ["a,\"b", "", "c\"d"];
    DoubledSpelled();
    assert forall i | 0 <= i < 3 :: Spells(pieces[i], fields[i]);
    RowReadBack(pieces, fields);
    assert pieces[1..] == ["", "c\"d"] && pieces[1..][1..] == ["c\"d"];
    assert Join(["c\"d"], ",") == "c\"d" && Join(["", "c\"d"], ",") == "" + "," + "c\"d";
    assert Join(pieces, ",") == "\"a,\"\"b\"" + "," + ("" + "," + "c\"d") == "\"a,\"\"b\",,c\"d";
  }

  lemma DoubledSpelled()
    ensures Quoted("a,\"b") == "\"a,\"\"b\""
  {
    assert Doubled("") == "" && Doubled("b") == "b" && Doubled("\"b") == "\"\"b" && Doubled(",\"b") == ",\"\"b";
    assert Doubled("a,\"b") == "a,\"\"b";
  }

  // ---------------------------------------------------------------- which fields may stand bare

  /** The characters of some fields and the commas between. */
  function Size(fields: seq<string>): nat
    requires fields != []
  {
    if |fields| == 1 then |fields[0]| else |fields[0]| + 1 + Size(fields[1..])
  }

  /** Reading never makes more characters than it takes. */
  lemma {:induction false} NoGrowth(s: string, field: string, inQuotes: bool)
    ensures Size(Fields(s, field, inQuotes)) <= |field| + |s|
    decreases |s|
  {
    if s != "" {
      if s[0] == QUOTE {
        if !inQuotes {
          if field != "" { NoGrowth(s[1..], field + [QUOTE], false); } else { NoGrowth(s[1..], field, true); }
        } else if |s| > 1 && s[1] == QUOTE {
          NoGrowth(s[2..], field + [QUOTE], true);
        } else {
          NoGrowth(s[1..], field, false);
        }
      } else if s[0] == ',' && !inQuotes {
        NoGrowth(s[1..], "", false);
        assert ([field] + Fields(s[1..], "", false))[1..] == Fields(s[1..], "", false);
      } else {
        NoGrowth(s[1..], field + [s[0]], inQuotes);
      }
    }
  }

  lemma {:induction false} CommaSplits(s: string, field: string)
    requires ',' in s && (field != "" || s[0] != QUOTE)
    ensures |Fields(s, field, false)| > 1
    decreases |s|
  {
    if s[0] != ',' {
      var i :| 0 <= i < |s| && s[i] == ',';
      assert s[1..][i - 1] == ',';
      CommaSplits(s[1..], field + [s[0]]);
    }
  }

  /** A text alone on a row is read as itself exactly when it has no comma and does not start with a quote. */
  lemma BareExactly(f: string)
    ensures Fields(f, "", false) == [f] <==> BareOk(f)
  {
    assert f + "" == f && "" + f == f;
    if BareOk(f) {
      OutsideQuotes(f, "", "");
    } else if f[0] == QUOTE {
      NoGrowth(f[1..], "", true);
    } else {
      CommaSplits(f, "");
    }
  }

  // ---------------------------------------------------------------- the loop

  method ParseCsvRow(input: string) returns (fields: seq<string>)
    ensures fields == Fields(input, "", false)
  {
    fields := [];
    var field, inQuotes, i := "", false, 0;
    ghost var all := Fields(input, "", false);
    assert input[0..] == input && [] + all == all;
    while i < |input|
      invariant i <= |input| && fields + Fields(input[i..], field, inQuotes) == all
    {
      var ch := input[i];
      ghost var rest := input[i..];
      assert rest[0] == ch && rest[1..] == input[i + 1..];
      if ch == QUOTE {
        if !inQuotes {
          if field != "" {
            field := field + [QUOTE];
          } else {
            inQuotes := true;
          }
        } else {
          if i + 1 < |input| && input[i + 1] == QUOTE {
            assert rest[1] == QUOTE && rest[2..] == input[i + 2..];
            field := field + [QUOTE];
            i := i + 1;
          } else {
            inQuotes := false;
          }
        }
      } else if ch == ',' {
        if inQuotes {
          field := field + ",";
        } else {
          assert fields + ([field] + Fields(rest[1..], "", false)) == (fields + [field]) + Fields(rest[1..], "", false);
          fields := fields + [field];
          field := "";
        }
      } else {
        field := field + [ch];
      }
      i := i + 1;
    }
    fields := fields + [field];
  }
}
