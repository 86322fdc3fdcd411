/**
 * What `extractHeaderValues` and `hasIgnoreTag` promise, stated against the
 * document's lines: which line is read, when the inline value wins, how far a
 * list reaches, and when a document counts as ignored.
 */
module HeaderProperties {
  import opened Wrappers
  import opened Text
  import opened Header

  /** `lines[k]` is the first line that starts the field. */
  ghost predicate FirstFieldLine(lines: seq<string>, fieldName: string, k: nat) {
    k < |lines| && IsFieldLine(lines[k], fieldName) &&
    forall m :: 0 <= m < k ==> !IsFieldLine(lines[m], fieldName)
  }

  /** Without a line that starts the field, there are no values. */
  lemma HeaderValuesAbsent(lines: seq<string>, fieldName: string)
    requires forall k :: 0 <= k < |lines| ==> !IsFieldLine(lines[k], fieldName)
    ensures HeaderValues(lines, fieldName) == None
  {
  }

  /** A non-empty value on the field's first line is the single value; later lines do not matter. */
  lemma HeaderValuesInline(lines: seq<string>, fieldName: string, k: nat)
    requires FirstFieldLine(lines, fieldName, k)
    requires |InlineValue(lines[k])| > 0
    ensures HeaderValues(lines, fieldName) == Some([InlineValue(lines[k])])
  {
    FindFieldLineAt(lines, fieldName, k);
  }

  /** The run's values are those of its item lines, and the line right after the run is not an item. */
  lemma {:induction false} ItemRunValues(lines: seq<string>)
    ensures forall k :: 0 <= k < |ItemRun(lines)| ==> IsItemLine(lines[k]) && ItemRun(lines)[k] == ItemValue(lines[k])
    ensures |ItemRun(lines)| < |lines| ==> !IsItemLine(lines[|ItemRun(lines)|])
    decreases |lines|
  {
    if lines != [] && IsItemLine(lines[0]) {
      ItemRunValues(lines[1..]);
      var rest := ItemRun(lines[1..]);
      assert ItemRun(lines) == [ItemValue(lines[0])] + rest;
      forall k | 0 < k < |ItemRun(lines)|
        ensures IsItemLine(lines[k]) && ItemRun(lines)[k] == ItemValue(lines[k])
      {
        assert lines[k] == lines[1..][k - 1];
      }
      if |ItemRun(lines)| < |lines| {
        assert lines[|ItemRun(lines)|] == lines[1..][|rest|];
      }
    }
  }

  /** The values of the `n` item lines that follow line `k`. */
  function ItemValuesAfter(lines: seq<string>, k: nat, n: nat): (values: seq<string>)
    requires k + 1 + n <= |lines|
    ensures |values| == n
    ensures forall m :: 0 <= m < n ==> values[m] == ItemValue(lines[k + 1 + m])
  {
    seq(n, m requires 0 <= m < n => ItemValue(lines[k + 1 + m]))
  }

  /** A run of exactly `n` item lines at the start of `lines`. */
  lemma {:induction false} ItemRunExact(lines: seq<string>, n: nat)
    requires n <= |lines|
    requires forall m :: 0 <= m < n ==> IsItemLine(lines[m])
    requires n == |lines| || !IsItemLine(lines[n])
    ensures ItemRun(lines) == seq(n, m requires 0 <= m < n => ItemValue(lines[m]))
    decreases n
  {
    if n == 0 {
      if lines != [] {
        assert !IsItemLine(lines[0]);
      }
    } else {
      assert IsItemLine(lines[0]);
      ItemRunExact(lines[1..], n - 1);
      var tail := seq(n - 1, m requires 0 <= m < n - 1 => ItemValue(lines[1..][m]));
      assert ItemRun(lines) == [ItemValue(lines[0])] + tail;
    }
  }

  /**
   * With nothing after the colon, the values are those of the item lines that
   * follow, up to the first line that is not an item; none at all gives `None`.
   */
  lemma HeaderValuesList(lines: seq<string>, fieldName: string, k: nat, n: nat)
    requires FirstFieldLine(lines, fieldName, k)
    requires |InlineValue(lines[k])| == 0
    requires k + 1 + n <= |lines|
    requires forall m :: k + 1 <= m < k + 1 + n ==> IsItemLine(lines[m])
    requires k + 1 + n == |lines| || !IsItemLine(lines[k + 1 + n])
    ensures n == 0 ==> HeaderValues(lines, fieldName) == None
    ensures n > 0 ==> HeaderValues(lines, fieldName) == Some(ItemValuesAfter(lines, k, n))
  {
    FindFieldLineAt(lines, fieldName, k);
    var rest := lines[k + 1..];
    forall m | 0 <= m < n ensures IsItemLine(rest[m]) {
      assert rest[m] == lines[k + 1 + m];
    }
    ItemRunExact(rest, n);
    assert ItemRun(rest) == ItemValuesAfter(lines, k, n);
  }

  /** `ItemRun` reads no further than the first line that is not an item. */
  lemma {:induction false} ItemRunStopsAtNonItem(lines: seq<string>, extra: seq<string>)
    requires |ItemRun(lines)| < |lines|
    ensures ItemRun(lines + extra) == ItemRun(lines)
    decreases |lines|
  {
    assert (lines + extra)[0] == lines[0];
    if IsItemLine(lines[0]) {
      assert (lines + extra)[1..] == lines[1..] + extra;
      ItemRunStopsAtNonItem(lines[1..], extra);
    }
  }

  /** The first line at which the field is met, once found, stays first when lines are appended. */
  lemma FindFieldLineAppend(lines: seq<string>, fieldName: string, k: nat, extra: seq<string>)
    requires FirstFieldLine(lines, fieldName, k)
    ensures FindFieldLine(lines + extra, fieldName) == Some(k)
  {
    var all := lines + extra;
    forall m | 0 <= m < k ensures !IsFieldLine(all[m], fieldName) {
      assert all[m] == lines[m];
    }
    assert all[k] == lines[k];
    FindFieldLineAt(all, fieldName, k);
  }

  /**
   * Once the value is settled inside `lines` (an inline value, or a list that
   * a non-item line ends), appending lines changes nothing.
   */
  lemma LaterLinesIgnored(lines: seq<string>, fieldName: string, k: nat, extra: seq<string>)
    requires FirstFieldLine(lines, fieldName, k)
    requires |InlineValue(lines[k])| > 0 || k + 1 + |ItemRun(lines[k + 1..])| < |lines|
    ensures HeaderValues(lines + extra, fieldName) == HeaderValues(lines, fieldName)
  {
    FindFieldLineAt(lines, fieldName, k);
    FindFieldLineAppend(lines, fieldName, k, extra);
    var all := lines + extra;
    assert all[k] == lines[k];
    if |InlineValue(lines[k])| == 0 {
      assert all[k + 1..] == lines[k + 1..] + extra;
      ItemRunStopsAtNonItem(lines[k + 1..], extra);
    }
  }

  /** `HasIgnoreTag` holds exactly when the first `ignore:` line, or its list, holds the value `true`. */
  lemma HasIgnoreTagIff(content: string)
    ensures HasIgnoreTag(content) <==>
      exists k: nat :: FirstFieldLine(Lines(content), "ignore", k) &&
        (if |InlineValue(Lines(content)[k])| > 0
         then InlineValue(Lines(content)[k]) == "true"
         else "true" in ItemRun(Lines(content)[k + 1..]))
  {
    var lines := Lines(content);
    forall k: nat | FirstFieldLine(lines, "ignore", k)
      ensures HasIgnoreTag(content) <==>
        (if |InlineValue(lines[k])| > 0 then InlineValue(lines[k]) == "true" else "true" in ItemRun(lines[k + 1..]))
    {
      FindFieldLineAt(lines, "ignore", k);
    }
    if HasIgnoreTag(content) {
      var k := FindFieldLine(lines, "ignore").value;
      assert FirstFieldLine(lines, "ignore", k);
    }
  }

  /** A document without an `ignore:` line is never ignored. */
  lemma NoIgnoreFieldNotIgnored(content: string)
    requires forall k :: 0 <= k < |Lines(content)| ==> !IsFieldLine(Lines(content)[k], "ignore")
    ensures !HasIgnoreTag(content)
  {
    HeaderValuesAbsent(Lines(content), "ignore");
  }

  /** A line that is `fieldName: value` carries `value` inline. */
  lemma InlineValueOf(fieldName: string, value: string)
    requires ':' !in fieldName
    requires value == [] || (value[0] !in Whitespace && value[|value| - 1] !in Whitespace)
    ensures IsFieldLine(fieldName + ": " + value, fieldName)
    ensures InlineValue(fieldName + ": " + value) == value
  {
    var line := fieldName + ": " + value;
    assert line == fieldName + [':'] + ([' '] + value);
    assert line[..|fieldName| + 1] == fieldName + ":";
    AfterFirstOf(fieldName, ':', [' '] + value);
    TrimLeftSkips(' ', value, Whitespace);
    StripUnchanged(value);
  }

  /**
   * A one-line document `ignore: value` is ignored exactly when the value is
   * `true`.
   */
  lemma InlineIgnoreTag(value: string)
    requires '\n' !in value && value != []
    requires value[0] !in Whitespace && value[|value| - 1] !in Whitespace
    ensures HasIgnoreTag("ignore: " + value) <==> value == "true"
  {
    var line := "ignore" + ": " + value;
    assert "ignore: " + value == line;
    assert '\n' !in line by {
      assert line == "ignore: " + value;
      assert '\n' !in "ignore: ";
    }
    SplitWithoutSeparator(line, '\n');
    InlineValueOf("ignore", value);
    HeaderValuesInline([line], "ignore", 0);
  }

  /** A list item `- value` whose value neither starts with `-` nor is bounded by whitespace reads back as `value`. */
  lemma ItemValueOf(value: string)
    requires value != [] && value[0] !in Whitespace && value[0] != '-'
    requires value[|value| - 1] !in Whitespace
    ensures IsItemLine("- " + value)
    ensures ItemValue("- " + value) == value
  {
    var line := "- " + value;
    assert line == ['-'] + ([' '] + value);
    StripUnchanged(line);
    assert line[..2] == "- ";
    TrimLeftSkips('-', [' '] + value, {'-', ' '});
    TrimLeftSkips(' ', value, {'-', ' '});
    StripUnchanged(value);
  }

  /** A value that can be written as a list item and read back unchanged. */
  ghost predicate PlainValue(value: string) {
    value != [] && '\n' !in value && value[0] !in Whitespace && value[0] != '-' &&
    value[|value| - 1] !in Whitespace
  }

  /** The document `ignore:` followed by one `- value` line per value. */
  function IgnoreListDocument(values: seq<string>): (lines: seq<string>)
    ensures |lines| == |values| + 1 && lines[0] == "ignore:"
    ensures forall m :: 0 <= m < |values| ==> lines[m + 1] == "- " + values[m]
  {
    ["ignore:"] + seq(|values|, m requires 0 <= m < |values| => "- " + values[m])
  }

  /** Every line after the first of the list document is an item carrying its value. */
  lemma ListDocumentItems(values: seq<string>, m: nat)
    requires m < |values| && PlainValue(values[m])
    ensures IsItemLine(IgnoreListDocument(values)[m + 1])
    ensures ItemValue(IgnoreListDocument(values)[m + 1]) == values[m]
  {
    ItemValueOf(values[m]);
  }

  /** The list document's text splits back into its lines. */
  lemma ListDocumentLines(values: seq<string>)
    requires forall m :: 0 <= m < |values| ==> PlainValue(values[m])
    ensures Lines(Join(IgnoreListDocument(values), '\n')) == IgnoreListDocument(values)
  {
    var lines := IgnoreListDocument(values);
    forall m | 0 <= m < |lines| ensures '\n' !in lines[m] {
      if m > 0 {
        assert lines[m] == ['-', ' '] + values[m - 1];
        assert PlainValue(values[m - 1]);
      }
    }
    SplitJoin(lines, '\n');
  }

  /** The first line of the list document starts the `ignore` field with nothing after the colon. */
  lemma ListDocumentHead()
    ensures IsFieldLine("ignore:", "ignore") && InlineValue("ignore:") == ""
  {
    assert "ignore:" == "ignore" + [':'] + "";
    AfterFirstOf("ignore", ':', "");
  }

  /** The list document's `ignore` values are the listed values, or `None` when there are none. */
  lemma ListDocumentValues(values: seq<string>)
    requires forall m :: 0 <= m < |values| ==> PlainValue(values[m])
    ensures HeaderValues(IgnoreListDocument(values), "ignore") == if values == [] then None else Some(values)
  {
    var lines := IgnoreListDocument(values);
    ListDocumentHead();
    forall m | 1 <= m < 1 + |values| ensures IsItemLine(lines[m]) {
      ListDocumentItems(values, m - 1);
    }
    HeaderValuesList(lines, "ignore", 0, |values|);
    if values != [] {
      forall m | 0 <= m < |values| ensures ItemValuesAfter(lines, 0, |values|)[m] == values[m] {
        ListDocumentItems(values, m);
      }
      assert ItemValuesAfter(lines, 0, |values|) == values;
    }
  }

  /**
   * A document whose `ignore` field is a list is ignored exactly when one of
   * the listed values is `true`.
   */
  lemma ListIgnoreTag(values: seq<string>)
    requires forall m :: 0 <= m < |values| ==> PlainValue(values[m])
    ensures HasIgnoreTag(Join(IgnoreListDocument(values), '\n')) <==> "true" in values
  {
    ListDocumentLines(values);
    ListDocumentValues(values);
  }
}
