/** Lookup in the host's table of display sizes. The table itself lives inside
    the host editor and is reached by reflection; here it is an abstract
    sequence: the display texts of its entries, or their widths and heights. */
module GameViewSizes {
  import opened Wrappers
  import Naming
  import opened Strings

  /** The name part of a display text. A named size shows as `Name (W:H)`;
      the text is cut one character before its first `(`, dropping the space
      in front of the parenthesis. A text that starts with `(` makes that cut
      a negative length, which throws. */
  function DisplayName(display: string): (r: Result<string>)
    ensures r.Err? <==> |display| > 0 && display[0] == '('
    ensures r.Err? ==> r.error == ArgumentOutOfRange
    ensures r.Ok? ==> |r.value| <= |display| && r.value == display[..|r.value|]
    ensures r.Ok? ==> forall j :: 0 <= j < |r.value| ==> r.value[j] != '('
    ensures r.Ok? && (exists j :: 0 <= j < |display| && display[j] == '(') ==>
      |r.value| + 1 < |display| && display[|r.value| + 1] == '('
    ensures r.Ok? && (exists j :: 0 <= j < |display| && display[j] == '(') ==>
      forall j :: 0 <= j <= |r.value| ==> display[j] != '('
    ensures (forall j :: 0 <= j < |display| ==> display[j] != '(') ==> r == Ok(display)
  {
    var pren := IndexOf(display, '(');
    if pren == -1 then Ok(display)
    else if pren - 1 < 0 then Err(ArgumentOutOfRange)
    else Ok(display[..pren - 1])
  }

  /** A name that holds no `(` is recovered from the display text the host
      builds for it, whatever follows the ` (`. */
  lemma LabelRecoveredFromDisplay(name: string, rest: string)
    requires forall j :: 0 <= j < |name| ==> name[j] != '('
    ensures DisplayName(name + " (" + rest) == Ok(name)
  {
    var d := name + " (" + rest;
    assert d[|name| + 1] == '(';
    assert IndexOf(d, '(') == |name| + 1;
    assert d[..|name|] == name;
  }

  /** In particular a display text built for the temporary size a batch
      registers cuts back to exactly that label. This is about one entry: a
      search reaches it only when no earlier entry starts with `(`. */
  lemma TempSizeRecovered(width: int, height: int, rest: string)
    ensures DisplayName(Naming.TempSizeName(width, height) + " (" + rest) == Ok(Naming.TempSizeName(width, height))
    ensures DisplayName(Naming.TempSizeName(width, height)) == Ok(Naming.TempSizeName(width, height))
  {
    LabelRecoveredFromDisplay(Naming.TempSizeName(width, height), rest);
  }

  /** Every entry before `n` has a name, and it is not `text`. */
  ghost predicate NoNameMatchBefore(displays: seq<string>, text: string, n: int)
    requires n <= |displays|
  {
    forall j :: 0 <= j < n ==> DisplayName(displays[j]).Ok? && DisplayName(displays[j]).value != text
  }

  /** Linear search of the display texts for the first entry whose name is
      `text`. The result is -1 when no entry matches; the search throws at the
      first entry starting with `(` that comes before any match. */
  method FindSizeIndexByName(displays: seq<string>, text: string) returns (r: Result<int>)
    ensures r.Ok? ==> -1 <= r.value < |displays|
    ensures r.Ok? && r.value == -1 ==> NoNameMatchBefore(displays, text, |displays|)
    ensures r.Ok? && r.value >= 0 ==>
      DisplayName(displays[r.value]) == Ok(text) && NoNameMatchBefore(displays, text, r.value)
    ensures r.Err? ==>
      r.error == ArgumentOutOfRange &&
      exists k :: 0 <= k < |displays| && DisplayName(displays[k]).Err? && NoNameMatchBefore(displays, text, k)
  {
    var i := 0;
    while i < |displays|
      invariant 0 <= i <= |displays|
      invariant NoNameMatchBefore(displays, text, i)
    {
      var display := displays[i];
      var pren := IndexOf(display, '(');
      if pren != -1 {
        if pren - 1 < 0 {
          return Err(ArgumentOutOfRange);
        }
        display := display[..pren - 1];
      }
      if display == text {
        return Ok(i);
      }
      i := i + 1;
    }
    return Ok(-1);
  }

  /** Linear search of the sizes for the first entry of the given width and
      height, or -1. */
  method FindSizeIndexBySize(sizes: seq<(int, int)>, width: int, height: int) returns (r: int)
    ensures -1 <= r < |sizes|
    ensures r == -1 ==> forall j :: 0 <= j < |sizes| ==> sizes[j] != (width, height)
    ensures r >= 0 ==> sizes[r] == (width, height) && forall j :: 0 <= j < r ==> sizes[j] != (width, height)
  {
    var i := 0;
    while i < |sizes|
      invariant 0 <= i <= |sizes|
      invariant forall j :: 0 <= j < i ==> sizes[j] != (width, height)
    {
      var (sizeWidth, sizeHeight) := sizes[i];
      if sizeWidth == width && sizeHeight == height {
        return i;
      }
      i := i + 1;
    }
    return -1;
  }

  /** A size of that name exists. Searching throws as the search does. */
  method IsSizeExistByName(displays: seq<string>, text: string) returns (r: Result<bool>)
    ensures r.Ok? ==> (r.value <==> exists j :: 0 <= j < |displays| && DisplayName(displays[j]) == Ok(text))
    ensures (forall j :: 0 <= j < |displays| ==> DisplayName(displays[j]).Ok?) ==> r.Ok?
    ensures r.Err? ==> exists k :: 0 <= k < |displays| && DisplayName(displays[k]).Err?
    ensures r.Err? <==>
      exists k :: 0 <= k < |displays| && DisplayName(displays[k]).Err? && NoNameMatchBefore(displays, text, k)
  {
    var index := FindSizeIndexByName(displays, text);
    if index.Err? {
      return Err(index.error);
    }
    forall k | 0 <= k < |displays|
      ensures NoNameMatchBefore(displays, text, k) ==> DisplayName(displays[k]).Ok?
    {
      if index.value == -1 || k < index.value {
        assert DisplayName(displays[k]).Ok?;
      } else if k > index.value {
        assert DisplayName(displays[index.value]).value == text;
        assert !NoNameMatchBefore(displays, text, k);
      }
    }
    return Ok(index.value != -1);
  }

  /** A size of that width and height exists. */
  method IsSizeExistBySize(sizes: seq<(int, int)>, width: int, height: int) returns (r: bool)
    ensures r <==> exists j :: 0 <= j < |sizes| && sizes[j] == (width, height)
  {
    var index := FindSizeIndexBySize(sizes, width, height);
    r := index != -1;
  }
}
