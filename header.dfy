/**
 * Reading a field from a document's front matter (`extractHeaderValues`) and
 * the ignore-flag check built on it (`hasIgnoreTag`), from
 * compiler/files/markdownUtils.py.
 *
 * A field is either inline, `field: value`, or a list: `field:` followed by
 * lines `- value`. Only the first line that starts with `field:` is read; the
 * result is absent (`None`) rather than an empty list when nothing is found.
 */
module Header {
  import opened Wrappers
  import opened Text

  /** `content.splitlines()`, approximated by splitting at line feeds. */
  function Lines(content: string): seq<string> {
    Split(content, '\n')
  }

  /** `line.startswith(f'{fieldName}:')`. */
  predicate IsFieldLine(line: string, fieldName: string) {
    StartsWith(line, fieldName + ":")
  }

  /** The index of the first line that starts the field, if any. */
  function FindFieldLine(lines: seq<string>, fieldName: string): (r: Option<nat>)
    ensures r.Some? ==> r.value < |lines| && IsFieldLine(lines[r.value], fieldName)
    ensures r.Some? ==> forall k :: 0 <= k < r.value ==> !IsFieldLine(lines[k], fieldName)
    ensures r.None? ==> forall k :: 0 <= k < |lines| ==> !IsFieldLine(lines[k], fieldName)
    decreases |lines|
  {
    if lines == [] then None
    else if IsFieldLine(lines[0], fieldName) then Some(0)
    else match FindFieldLine(lines[1..], fieldName)
      case None => None
      case Some(k) => Some(k + 1)
  }

  /** `line.split(':', 1)[1].strip()`, the value written on the field's own line. */
  function InlineValue(line: string): string {
    if ':' in line then Strip(AfterFirst(line, ':')) else ""
  }

  /** A list item: the stripped line starts with `- `. */
  predicate IsItemLine(line: string) {
    StartsWith(Strip(line), "- ")
  }

  /** `line.strip().lstrip('- ').strip()`: the item's value. */
  function ItemValue(line: string): string {
    Strip(TrimLeft(Strip(line), {'-', ' '}))
  }

  /** The values of the item lines at the start of `lines`, up to the first line that is not an item. */
  function ItemRun(lines: seq<string>): (values: seq<string>)
    ensures |values| <= |lines|
    decreases |lines|
  {
    if lines == [] || !IsItemLine(lines[0]) then [] else [ItemValue(lines[0])] + ItemRun(lines[1..])
  }

  /** `extractHeaderValues` as a function of the document's lines. */
  function HeaderValues(lines: seq<string>, fieldName: string): (r: Option<seq<string>>)
    ensures r != Some([])
  {
    match FindFieldLine(lines, fieldName)
    case None => None
    case Some(k) =>
      var inline := InlineValue(lines[k]);
      var values := if |inline| > 0 then [inline] else ItemRun(lines[k + 1..]);
      if values == [] then None else Some(values)
  }

  /** The first line that starts the field is the one `FindFieldLine` reports. */
  lemma FindFieldLineAt(lines: seq<string>, fieldName: string, i: nat)
    requires i < |lines| && IsFieldLine(lines[i], fieldName)
    requires forall k :: 0 <= k < i ==> !IsFieldLine(lines[k], fieldName)
    ensures FindFieldLine(lines, fieldName) == Some(i)
  {
  }

  /** One step of `ItemRun`: an item line contributes its value, any other line ends the run. */
  lemma ItemRunStep(lines: seq<string>, j: nat)
    requires j < |lines|
    ensures ItemRun(lines[j..]) == if IsItemLine(lines[j]) then [ItemValue(lines[j])] + ItemRun(lines[j + 1..]) else []
  {
    assert lines[j..][1..] == lines[j + 1..];
  }

  /** Lines 108-110 for one line: `lines[j].strip()`, whether it starts with `- `, and the item's value. */
  method ReadItem(line: string) returns (isItem: bool, value: string)
    ensures isItem == IsItemLine(line)
    ensures isItem ==> value == ItemValue(line)
  {
    var subLine := Strip(line);
    isItem := StartsWith(subLine, "- ");
    value := if isItem then Strip(TrimLeft(subLine, {'-', ' '})) else "";
  }

  /** The list loop of lines 107-112: item values from `start` up to the first non-item line. */
  method ReadListItems(lines: seq<string>, start: nat) returns (values: seq<string>)
    requires start <= |lines|
    ensures values == ItemRun(lines[start..])
  {
    values := [];
    var j := start;
    while j < |lines|
      invariant start <= j <= |lines|
      invariant ItemRun(lines[start..]) == values + ItemRun(lines[j..])
    {
      ItemRunStep(lines, j);
      var isItem, item := ReadItem(lines[j]);
      if isItem {
        values := values + [item];
      } else {
        break;
      }
      j := j + 1;
    }
    assert lines[|lines|..] == [];
  }

  /** `extractHeaderValues`: the scan for the field's line, then its inline value or its list items. */
  method ExtractHeaderValues(content: string, fieldName: string) returns (r: Option<seq<string>>)
    ensures r == HeaderValues(Lines(content), fieldName)
  {
    var lines := Lines(content);
    var values: seq<string> := [];
    var i := 0;
    while i < |lines|
      invariant 0 <= i <= |lines|
      invariant forall k :: 0 <= k < i ==> !IsFieldLine(lines[k], fieldName)
      invariant values == []
    {
      var line := lines[i];
      if StartsWith(line, fieldName + ":") {
        FindFieldLineAt(lines, fieldName, i);
        var inline := if ':' in line then Strip(AfterFirst(line, ':')) else "";
        assert inline == InlineValue(lines[i]);
        if ':' in line && |inline| > 0 {
          values := values + [inline];
        } else {
          values := ReadListItems(lines, i + 1);
        }
        assert values == if |InlineValue(lines[i])| > 0 then [InlineValue(lines[i])] else ItemRun(lines[i + 1..]);
        break;
      }
      i := i + 1;
    }
    if i == |lines| {
      assert FindFieldLine(lines, fieldName) == None;
    }
    r := if values != [] then Some(values) else None;
  }

  /** `hasIgnoreTag`: the `ignore` field is present and one of its values is exactly `true`. */
  function HasIgnoreTag(content: string): (ignored: bool)
    ensures ignored ==> exists k :: 0 <= k < |Lines(content)| && IsFieldLine(Lines(content)[k], "ignore")
  {
    var values := HeaderValues(Lines(content), "ignore");
    values.Some? && "true" in values.value
  }
}
