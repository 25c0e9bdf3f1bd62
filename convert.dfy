/**
 convert_row_to_json: one CSV row, a mapping from header name to raw text
 kept in header order, becomes the JSON payload. Each value is coerced to a
 number where its chosen parse succeeds and kept as text otherwise; the key
 "pw" is renamed "PW".
 */
module Convert {
  import opened Wrappers
  import opened Decimal

  /**
   A payload value. A float is represented by the text float() accepted:
   floating-point values themselves are not modelled.
   */
  datatype Value = IntV(n: int) | FloatV(text: string) | StrV(s: string)

  /** A CSV row: (header name, raw value) pairs in header order. */
  type Row = seq<(string, string)>

  type Payload = map<string, Value>

  /**
   The coercion of one raw value: a '.' selects float(), anything else
   int(); a ValueError from the selected parse keeps the original text.
   */
  function ConvertValue(v: string): (r: Value)
    ensures '.' in v ==> !r.IntV?
    ensures '.' !in v ==> !r.FloatV?
    ensures r.StrV? ==> r.s == v
    ensures r.FloatV? ==> r.text == v
  {
    if '.' in v then
      if IsFloatText(v) then FloatV(v) else StrV(v)
    else
      match ParseInt(v)
      case Some(n) => IntV(n)
      case None => StrV(v)
  }

  /** The payload key for a header name. */
  function OutKey(key: string): string
  {
    if key == "pw" then "PW" else key
  }

  /**
   The payload of a row: the entries written in row order into an empty
   dictionary, so a later write to the same payload key wins.
   */
  function PayloadOf(row: Row): Payload
  {
    if |row| == 0 then map[]
    else
      var (key, value) := row[|row| - 1];
      PayloadOf(row[..|row| - 1])[OutKey(key) := ConvertValue(value)]
  }

  method ConvertRowToJson(row: Row) returns (payload: Payload)
    ensures payload == PayloadOf(row)
  {
    payload := map[];
    for i := 0 to |row|
      invariant payload == PayloadOf(row[..i])
    {
      var (key, value) := row[i];
      var convValue := ConvertValue(value);
      assert row[..i + 1][..i] == row[..i];
      if key == "pw" {
        payload := payload["PW" := convValue];
      } else {
        payload := payload[key := convValue];
      }
    }
    assert row[..|row|] == row;
  }

  function RowKeys(row: Row): set<string>
  {
    set i | 0 <= i < |row| :: row[i].0
  }

  /** A row read from a dictionary: no header name occurs twice. */
  predicate DistinctKeys(row: Row)
  {
    forall i, j :: 0 <= i < j < |row| ==> row[i].0 != row[j].0
  }

  /**
   The payload's keys are exactly the row's keys with "pw" replaced by "PW":
   nothing is added and nothing else is dropped.
   */
  lemma {:induction false} PayloadKeys(row: Row)
    ensures PayloadOf(row).Keys
         == (RowKeys(row) - {"pw"}) + (if "pw" in RowKeys(row) then {"PW"} else {})
  {
    if row != [] {
      var front := row[..|row| - 1];
      var key := row[|row| - 1].0;
      PayloadKeys(front);
      assert RowKeys(row) == RowKeys(front) + {key} by {
        forall k | k in RowKeys(row) ensures k in RowKeys(front) + {key} {
          var i :| 0 <= i < |row| && row[i].0 == k;
          if i < |row| - 1 { assert front[i].0 == k; }
        }
        forall k | k in RowKeys(front) ensures k in RowKeys(row) {
          var i :| 0 <= i < |front| && front[i].0 == k;
          assert row[i].0 == k;
        }
      }
    }
  }

  /**
   The payload entry under a key is the value converted from the last row
   entry that writes that key.
   */
  lemma {:induction false} PayloadLastWrite(row: Row, j: nat)
    requires j < |row|
    requires forall i :: j < i < |row| ==> OutKey(row[i].0) != OutKey(row[j].0)
    ensures OutKey(row[j].0) in PayloadOf(row)
    ensures PayloadOf(row)[OutKey(row[j].0)] == ConvertValue(row[j].1)
  {
    if j < |row| - 1 {
      var front := row[..|row| - 1];
      assert front[j] == row[j];
      forall i | j < i < |front| ensures OutKey(front[i].0) != OutKey(front[j].0) {
        assert front[i] == row[i];
      }
      PayloadLastWrite(front, j);
    }
  }

  /** Every key other than "pw" and "PW" passes through with its converted value. */
  lemma PayloadPassThrough(row: Row, j: nat)
    requires DistinctKeys(row)
    requires j < |row| && row[j].0 != "pw" && row[j].0 != "PW"
    ensures row[j].0 in PayloadOf(row)
    ensures PayloadOf(row)[row[j].0] == ConvertValue(row[j].1)
  {
    forall i | j < i < |row| ensures OutKey(row[i].0) != OutKey(row[j].0) {
      assert row[i].0 != row[j].0;
    }
    PayloadLastWrite(row, j);
  }

  /**
   "pw" is renamed: its converted value is stored under "PW" and no "pw" key
   remains, unless a "PW" column later in the row overwrites it.
   */
  lemma PayloadRenamesPw(row: Row, j: nat)
    requires DistinctKeys(row)
    requires j < |row| && row[j].0 == "pw"
    requires forall i :: j < i < |row| ==> row[i].0 != "PW"
    ensures "PW" in PayloadOf(row) && "pw" !in PayloadOf(row)
    ensures PayloadOf(row)["PW"] == ConvertValue(row[j].1)
  {
    forall i | j < i < |row| ensures OutKey(row[i].0) != OutKey(row[j].0) {
      assert row[i].0 != row[j].0;
    }
    PayloadLastWrite(row, j);
    PayloadKeys(row);
  }

  /**
   The fallback keeps the identical text exactly when the selected parse
   fails; no other outcome is possible for such a value.
   */
  lemma ConvertFallback(v: string)
    ensures ConvertValue(v) == StrV(v)
        <==> (if '.' in v then !IsFloatText(v) else !IsIntText(v))
  {
  }

  /** The str() of every int converts back to that int. */
  lemma ConvertIntRoundTrip(n: int)
    ensures ConvertValue(IntToString(n)) == IntV(n)
  {
    var s := IntToString(n);
    IntToStringRoundTrip(n);
    assert '.' !in s by {
      forall j | 0 <= j < |s| ensures s[j] != '.' {
        assert IsDigit(s[j]) || s[j] == '-';
      }
    }
  }

  /** Leading zeros of an integer value are lost: "007" becomes 7. */
  lemma ConvertLeadingZeros(ds: string)
    requires |ds| > 0 && AllDigits(ds)
    ensures ConvertValue("0" + ds) == ConvertValue(ds) == IntV(DigitsValue(ds))
  {
    LeadingZerosIgnored(ds);
    IntTextHasNoPoint(ds);
    IntTextHasNoPoint("0" + ds);
  }

  /** A value with one '.' between digits converts to a float. */
  lemma ConvertPointFloat()
    ensures ConvertValue("1.5") == FloatV("1.5")
  {
    var m := "1.5";
    assert m[1] == '.' && AllDigits(m[..1]) && AllDigits(m[2..]);
  }

  /**
   Without a '.' only int() is tried: "1e5" and "inf", which float() would
   accept, and the empty value are kept as text.
   */
  lemma ConvertNoPointText()
    ensures ConvertValue("1e5") == StrV("1e5")
    ensures ConvertValue("inf") == StrV("inf")
    ensures ConvertValue("") == StrV("")
  {
    assert !IsDigit("1e5"[1]);
    assert !IsDigit("inf"[0]);
  }

  /** When a row holds "pw" and then "PW", the later "PW" value is the one stored. */
  lemma PayloadPwCollision()
    ensures PayloadOf([("pw", "1"), ("PW", "7")]) == map["PW" := IntV(7)]
  {
    var row := [("pw", "1"), ("PW", "7")];
    assert row[..1] == [("pw", "1")];
    assert row[..1][..0] == [];
    assert ParseInt("7") == Some(7);
  }
}
