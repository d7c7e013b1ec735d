/**
 * The settings records of Settings.cs: a title-bar format and its string
 * converter, and the settings triplet whose predicate strings are parsed
 * lazily into `(tag, pattern)` pairs and cached.
 */
module Settings {
  import opened Wrappers
  import opened Text
  import Parsing

  datatype Color = Color(a: bv8, r: bv8, g: bv8, b: bv8)

  datatype Brush = SolidColorBrush(color: Color)

  /** `color.NullOr(c => new SolidColorBrush(c))`: a brush exactly when there is a colour, painting that colour. */
  function BrushOf(color: Option<Color>): (r: Option<Brush>)
    ensures r.None? <==> color.None?
    ensures r.Some? ==> r.value.color == color.value
  {
    if color.None? then None else Some(SolidColorBrush(color.value))
  }

  class TitleBarFormat {
    var pattern: Option<string>
    var foregroundBrush: Option<Brush>
    var backgroundBrush: Option<Brush>

    /** `TitleBarFormat(pattern)`: the pattern and no brushes. */
    constructor(pattern: Option<string>)
      ensures this.pattern == pattern
      ensures foregroundBrush.None? && backgroundBrush.None?
    {
      this.pattern := pattern;
      foregroundBrush := None;
      backgroundBrush := None;
    }

    /** `TitleBarFormat(pattern, color)`: a foreground brush only for a colour; never a background brush. */
    constructor WithColor(pattern: Option<string>, color: Option<Color>)
      ensures this.pattern == pattern
      ensures foregroundBrush.Some? <==> color.Some?
      ensures foregroundBrush.Some? ==> foregroundBrush.value == SolidColorBrush(color.value)
      ensures backgroundBrush.None?
    {
      this.pattern := pattern;
      foregroundBrush := None;
      backgroundBrush := None;
      if color.Some? {
        foregroundBrush := Some(SolidColorBrush(color.value));
      }
    }
  }

  /** The types a conversion is asked about. */
  datatype TypeTag = StringType | InstanceDescriptorType | OtherType

  /**
   * `TitleBarFormatConverter.ConvertTo`: to a string, the format's pattern (a
   * null format throws when its pattern is read); to anything else the base
   * converter refuses.
   */
  function ConvertTo(value: TitleBarFormat?, destination: TypeTag): (r: Result<Option<string>>)
    reads value
    ensures destination == StringType && value != null ==> r == Ok(value.pattern)
    ensures destination == StringType && value == null ==> r == Throw(NullReference)
    ensures destination != StringType ==> r == Throw(NotSupported)
  {
    if destination != StringType then Throw(NotSupported)
    else if value == null then Throw(NullReference)
    else Ok(value.pattern)
  }

  /** `CanConvertFrom`: from a string, or from what the base converter accepts (an instance descriptor). */
  function CanConvertFrom(source: TypeTag): (r: bool)
    ensures r <==> source != OtherType
  {
    source == StringType || source == InstanceDescriptorType
  }

  /**
   * `ConvertFrom`: a string becomes a new format with that pattern and no
   * brushes; null or a value that is neither a string nor an instance
   * descriptor (`None`) the base converter refuses. An instance descriptor,
   * which the base converter would invoke, is not among the inputs.
   */
  method ConvertFrom(value: Option<string>) returns (r: Result<TitleBarFormat>)
    ensures value.None? ==> r == Throw(NotSupported)
    ensures value.Some? ==> r.Ok? && fresh(r.value) && r.value.pattern == value
    ensures value.Some? ==> r.value.foregroundBrush.None? && r.value.backgroundBrush.None?
  {
    if value.None? {
      return Throw(NotSupported);
    }
    var format := new TitleBarFormat(value);
    return Ok(format);
  }

  /** Converting a string to a format and back gives the same string. */
  method ConvertRoundTrip(s: string) returns (r: Result<Option<string>>)
    ensures r == Ok(Some(s))
  {
    var format := ConvertFrom(Some(s));
    r := ConvertTo(format.value, StringType);
  }

  /** `SettingsTriplet.BlockSettings`. */
  datatype BlockSettings = BlockSettings(text: Option<string>, foreground: Option<Color>, background: Option<Color>)

  /** The entries `PredicateString.Select(x => x.Trim()).Where(x => !string.IsNullOrEmpty(x))` keeps, in order. */
  function Kept(entries: seq<string>): (r: seq<string>)
    ensures |r| <= |entries|
    ensures forall k :: 0 <= k < |r| ==> r[k] != []
  {
    if entries == [] then []
    else if Trim(entries[0]) == [] then Kept(entries[1..])
    else [Trim(entries[0])] + Kept(entries[1..])
  }

  /** Every entry that is not blank once trimmed is kept, trimmed. */
  lemma {:induction false} KeptHas(entries: seq<string>, j: nat)
    requires j < |entries| && Trim(entries[j]) != []
    ensures Trim(entries[j]) in Kept(entries)
  {
    if j == 0 {
      KeptHead(entries);
    } else {
      KeptHas(entries[1..], j - 1);
      assert entries[1..][j - 1] == entries[j];
      KeptStep(entries, Trim(entries[j]));
    }
  }

  /** A first entry that is not blank is kept, trimmed. */
  lemma KeptHead(entries: seq<string>)
    requires entries != [] && Trim(entries[0]) != []
    ensures Trim(entries[0]) in Kept(entries)
  {
    assert Kept(entries) == [Trim(entries[0])] + Kept(entries[1..]);
  }

  /** What is kept from the entries after the first is kept from them all. */
  lemma KeptStep(entries: seq<string>, x: string)
    requires entries != [] && x in Kept(entries[1..])
    ensures x in Kept(entries)
  {
    if Trim(entries[0]) != [] {
      assert Kept(entries) == [Trim(entries[0])] + Kept(entries[1..]);
    }
  }

  /**
   * `.Select(parse).ToList()`: the result of every entry, in order, or the
   * exception of the first entry that throws.
   */
  function ParseAll(xs: seq<string>, parse: string -> Result<(string, string)>): (r: Result<seq<(string, string)>>)
    ensures r.Ok? <==> forall k :: 0 <= k < |xs| ==> parse(xs[k]).Ok?
    ensures r.Ok? ==> |r.value| == |xs| && forall k :: 0 <= k < |xs| ==> parse(xs[k]) == Ok(r.value[k])
  {
    if xs == [] then Ok([])
    else
      var p :- parse(xs[0]);
      var more :- ParseAll(xs[1..], parse);
      assert forall k :: 1 <= k < |xs| ==> xs[k] == xs[1..][k - 1];
      Ok([p] + more)
  }

  /** The exception is that of the first entry that throws. */
  lemma {:induction false} ParseAllFirstError(xs: seq<string>, parse: string -> Result<(string, string)>, j: nat)
    requires j < |xs| && parse(xs[j]).Throw?
    requires forall k :: 0 <= k < j ==> parse(xs[k]).Ok?
    ensures ParseAll(xs, parse) == Throw(parse(xs[j]).error)
  {
    if j > 0 {
      assert xs[1..][j - 1] == xs[j];
      ParseAllFirstError(xs[1..], parse, j - 1);
    }
  }

  /** When every entry that throws throws `e`, so does the list. */
  lemma {:induction false} ParseAllError(xs: seq<string>, parse: string -> Result<(string, string)>, e: Exception)
    requires forall k :: 0 <= k < |xs| ==> parse(xs[k]).Throw? ==> parse(xs[k]).error == e
    ensures ParseAll(xs, parse).Throw? ==> ParseAll(xs, parse).error == e
  {
    if xs != [] && parse(xs[0]).Ok? {
      assert forall k :: 0 <= k < |xs[1..]| ==> xs[1..][k] == xs[k + 1];
      ParseAllError(xs[1..], parse, e);
    }
  }

  /** What the `Predicates` getter computes from the predicate strings. */
  function ParsePredicates(entries: seq<string>): Result<seq<(string, string)>> {
    ParseAll(Kept(entries), Parsing.ParsePredicate)
  }

  /** The getter throws nothing but `InvalidOperationException`. */
  lemma PredicatesError(entries: seq<string>)
    ensures ParsePredicates(entries).Throw? ==> ParsePredicates(entries).error == InvalidOperation
  {
    ParseAllError(Kept(entries), Parsing.ParsePredicate, InvalidOperation);
  }

  /** A kept entry with no tag character makes the whole list throw. */
  lemma PredicatesThrowOn(entries: seq<string>, j: nat)
    requires j < |entries| && Trim(entries[j]) != []
    requires forall k :: 0 <= k < |entries[j]| ==> !Parsing.IsPredicateTagChar(entries[j][k])
    ensures ParsePredicates(entries) == Throw(InvalidOperation)
  {
    var t := Trim(entries[j]);
    KeptHas(entries, j);
    var kept := Kept(entries);
    var i :| 0 <= i < |kept| && kept[i] == t;
    TrimHasNoTag(entries[j]);
    assert Parsing.ParsePredicate(kept[i]).Throw?;
    PredicatesError(entries);
  }

  /** Trimming keeps a string free of tag characters. */
  lemma TrimHasNoTag(x: string)
    requires forall k :: 0 <= k < |x| ==> !Parsing.IsPredicateTagChar(x[k])
    ensures forall k :: 0 <= k < |Trim(x)| ==> !Parsing.IsPredicateTagChar(Trim(x)[k])
  {
    TrimStartHasNoTag(x);
    TrimEndHasNoTag(TrimStart(x));
  }

  /** Removing leading white space keeps a string free of tag characters. */
  lemma TrimStartHasNoTag(x: string)
    requires forall k :: 0 <= k < |x| ==> !Parsing.IsPredicateTagChar(x[k])
    ensures forall k :: 0 <= k < |TrimStart(x)| ==> !Parsing.IsPredicateTagChar(TrimStart(x)[k])
  {
    var s := TrimStart(x);
    WindowHasNoTag(x, s, |x| - |s|);
  }

  /** Removing trailing white space keeps a string free of tag characters. */
  lemma TrimEndHasNoTag(x: string)
    requires forall k :: 0 <= k < |x| ==> !Parsing.IsPredicateTagChar(x[k])
    ensures forall k :: 0 <= k < |TrimEnd(x)| ==> !Parsing.IsPredicateTagChar(TrimEnd(x)[k])
  {
    WindowHasNoTag(x, TrimEnd(x), 0);
  }

  /** A run of characters copied out of a string without tag characters has none either. */
  lemma WindowHasNoTag(x: string, t: string, offset: nat)
    requires offset + |t| <= |x|
    requires forall k :: 0 <= k < |t| ==> t[k] == x[offset + k]
    requires forall k :: 0 <= k < |x| ==> !Parsing.IsPredicateTagChar(x[k])
    ensures forall k :: 0 <= k < |t| ==> !Parsing.IsPredicateTagChar(t[k])
  {
    forall k | 0 <= k < |t|
      ensures !Parsing.IsPredicateTagChar(t[k])
    {
      assert t[k] == x[offset + k];
    }
  }

  /** Entries that are blank after trimming are ignored: with only those, the list is empty. */
  lemma {:induction false} BlankPredicates(entries: seq<string>)
    requires forall j :: 0 <= j < |entries| ==> Trim(entries[j]) == []
    ensures ParsePredicates(entries) == Ok([])
  {
    if entries != [] {
      BlankPredicates(entries[1..]);
    }
  }

  class SettingsTriplet {
    /** `PredicateString`, empty by default: the triplet then applies to the empty state of the IDE. */
    var predicateString: seq<string>
    /** The cache behind `Predicates`; null until first read. */
    var predicates: Option<seq<(string, string)>>
    var titleBarCaption: Option<string>
    var titleBarForeground: Option<Color>
    var titleBarBackground: Option<Color>
    var blocks: Option<seq<BlockSettings>>

    /** A triplet as deserialisation starts it: no predicates, nothing cached, every colour unset. */
    constructor()
      ensures predicateString == [] && predicates.None?
      ensures titleBarCaption.None? && titleBarForeground.None? && titleBarBackground.None? && blocks.None?
    {
      predicateString := [];
      predicates := None;
      titleBarCaption := None;
      titleBarForeground := None;
      titleBarBackground := None;
      blocks := None;
    }

    /**
     * `Predicates`: the cached list when there is one, whatever the predicate
     * strings say now; otherwise the parsed list, cached when parsing
     * succeeds (a throwing parse assigns nothing).
     */
    method Predicates() returns (r: Result<seq<(string, string)>>)
      modifies this
      ensures old(predicates).Some? ==> r == Ok(old(predicates).value) && predicates == old(predicates)
      ensures old(predicates).None? ==> r == ParsePredicates(predicateString)
      ensures old(predicates).None? ==> predicates == if r.Ok? then Some(r.value) else None
      ensures predicateString == old(predicateString) && titleBarCaption == old(titleBarCaption)
      ensures titleBarForeground == old(titleBarForeground) && titleBarBackground == old(titleBarBackground)
      ensures blocks == old(blocks)
    {
      if predicates.Some? {
        return Ok(predicates.value);
      }
      r := ParsePredicates(predicateString);
      if r.Ok? {
        predicates := Some(r.value);
      }
    }

    /** `TitleBarForegroundBrush`: null exactly when the colour is, else a brush of that colour. */
    function TitleBarForegroundBrush(): (r: Option<Brush>)
      reads this
      ensures r.None? <==> titleBarForeground.None?
      ensures r.Some? ==> r.value.color == titleBarForeground.value
    {
      BrushOf(titleBarForeground)
    }

    /** `TitleBarBackgroundBrush`: null exactly when the colour is, else a brush of that colour. */
    function TitleBarBackgroundBrush(): (r: Option<Brush>)
      reads this
      ensures r.None? <==> titleBarBackground.None?
      ensures r.Some? ==> r.value.color == titleBarBackground.value
    {
      BrushOf(titleBarBackground)
    }
  }

  /** A fresh triplet has no predicates, and editing the predicate strings after the first read changes nothing: the cache answers. */
  method DefaultPredicates() returns (first: Result<seq<(string, string)>>, second: Result<seq<(string, string)>>)
    ensures first == Ok([]) && second == first
  {
    var t := new SettingsTriplet();
    first := t.Predicates();
    BlankPredicates(t.predicateString);
    t.predicateString := ["svn"];
    second := t.Predicates();
  }
}
