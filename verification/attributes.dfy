/** The canonical form of the annotations an attribute extractor works with: the
    annotations sorted by name without repeats, one machine-learning attribute per
    annotation, the type mappings between VCF header types, annotation types and
    attribute types, and the ARFF and summary texts. */
module AttributeExtraction {
  import opened Wrappers
  import opened JavaStrings

  datatype AnnotationDataType = BOOLEAN | INTEGER | DOUBLE | STRING

  datatype MlDataType = ML_BOOLEAN | ML_INTEGER | ML_DOUBLE | ML_STRING

  /** The value types of a VCF header line. */
  datatype MetaType = META_INTEGER | META_FLOAT | META_FLAG | META_CHARACTER | META_STRING

  /** An annotation as far as the extractor sees it: its name and its value type. */
  datatype Annotation = Annotation(name: string, dataType: AnnotationDataType)

  datatype Attribute = Attribute(name: string, dataType: MlDataType)

  // ---------------------------------------------------------------------------------
  // Type mappings

  /** `getMlDataType`: each annotation type to the attribute type of the same name. */
  function MlDataTypeOf(t: AnnotationDataType): MlDataType
  {
    match t
    case BOOLEAN => ML_BOOLEAN
    case INTEGER => ML_INTEGER
    case DOUBLE => ML_DOUBLE
    case STRING => ML_STRING
  }

  /** The mapping is one-to-one and onto. */
  lemma MlDataTypeBijective()
    ensures forall a, b :: MlDataTypeOf(a) == MlDataTypeOf(b) ==> a == b
    ensures MlDataTypeOf(BOOLEAN) == ML_BOOLEAN && MlDataTypeOf(INTEGER) == ML_INTEGER
    ensures MlDataTypeOf(DOUBLE) == ML_DOUBLE && MlDataTypeOf(STRING) == ML_STRING
  {
  }

  /** `getCompatibleType`: the annotation type that can hold a VCF header type. */
  function CompatibleType(mt: MetaType): (r: Option<AnnotationDataType>)
    ensures r.Some?
    ensures r.value == INTEGER <==> mt == META_INTEGER
    ensures r.value == DOUBLE <==> mt == META_FLOAT
    ensures r.value == BOOLEAN <==> mt == META_FLAG
    ensures r.value == STRING <==> mt == META_STRING || mt == META_CHARACTER
  {
    match mt
    case META_INTEGER => Some(INTEGER)
    case META_FLOAT => Some(DOUBLE)
    case META_STRING => Some(STRING)
    case META_CHARACTER => Some(STRING)
    case META_FLAG => Some(BOOLEAN)
  }

  /** The name of an annotation type, as its `toString` gives it. */
  function TypeName(t: AnnotationDataType): string
  {
    match t
    case BOOLEAN => "BOOLEAN"
    case INTEGER => "INTEGER"
    case DOUBLE => "DOUBLE"
    case STRING => "STRING"
  }

  // ---------------------------------------------------------------------------------
  // ARFF text

  /** The ARFF type of an annotation type. */
  function ArffTypeWord(t: AnnotationDataType): string
  {
    if t == INTEGER || t == DOUBLE then "numeric"
    else if t == BOOLEAN then "{true,false}"
    else "string"
  }

  /** `getArffAttributeText`. */
  function ArffAttributeText(a: Annotation): string
  {
    var text := "@attribute " + a.name;
    if a.dataType == INTEGER || a.dataType == DOUBLE then text + " numeric"
    else if a.dataType == BOOLEAN then text + " {" + "true" + "," + "false" + "}"
    else text + " string"
  }

  /** An ARFF reader splitting the line at spaces finds the keyword, the annotation's
      name and the ARFF type, so long as the name holds no space. */
  lemma ArffAttributeTextFields(a: Annotation)
    requires ' ' !in a.name
    ensures Fields(ArffAttributeText(a), ' ') == ["@attribute", a.name, ArffTypeWord(a.dataType)]
  {
    var parts := ["@attribute", a.name, ArffTypeWord(a.dataType)];
    assert Join(parts, ' ') == ArffAttributeText(a) by {
      assert Join(parts[2..], ' ') == parts[2];
      assert Join(parts[1..], ' ') == parts[1] + [' '] + parts[2];
    }
    assert ' ' !in ArffTypeWord(a.dataType);
    FieldsOfJoin(parts, ' ');
  }

  /** `getValueAsArffString`: a missing value is "?", any other value its text. */
  function ValueAsArffString(value: Option<string>): (r: string)
    ensures value.None? ==> r == "?"
    ensures value.Some? ==> r == value.value
  {
    if value.None? then "?" else value.value
  }

  /** How an ARFF reader reads a value back: "?" is the missing value. */
  function ArffValue(text: string): (r: Option<string>)
    ensures r.None? <==> text == "?"
  {
    if text == "?" then None else Some(text)
  }

  /** Every value except the text "?" itself reads back as written, so two such values
      with the same ARFF text are the same value. */
  lemma ArffStringRoundTrip(value: Option<string>)
    requires value != Some("?")
    ensures ArffValue(ValueAsArffString(value)) == value
  {
  }

  // ---------------------------------------------------------------------------------
  // Names in order

  /** `String.compareTo` below zero: the first differing character decides, and a
      proper prefix comes first. */
  predicate NameLess(a: string, b: string)
    decreases |a|
  {
    |b| > 0 && (|a| == 0 || a[0] < b[0] || (a[0] == b[0] && NameLess(a[1..], b[1..])))
  }

  lemma {:induction false} NameLessIrreflexive(a: string)
    ensures !NameLess(a, a)
    decreases |a|
  {
    if |a| > 0 {
      NameLessIrreflexive(a[1..]);
    }
  }

  lemma {:induction false} NameLessTransitive(a: string, b: string, c: string)
    requires NameLess(a, b) && NameLess(b, c)
    ensures NameLess(a, c)
    decreases |a|
  {
    if |a| > 0 && a[0] == b[0] && b[0] == c[0] {
      NameLessTransitive(a[1..], b[1..], c[1..]);
    }
  }

  lemma {:induction false} NameLessTotal(a: string, b: string)
    ensures a == b || NameLess(a, b) || NameLess(b, a)
    decreases |a|
  {
    if |a| > 0 && |b| > 0 && a[0] == b[0] {
      NameLessTotal(a[1..], b[1..]);
      if a[1..] == b[1..] {
        assert a == [a[0]] + a[1..] && b == [b[0]] + b[1..];
      }
    }
  }

  lemma NameLessAsymmetric(a: string, b: string)
    requires NameLess(a, b)
    ensures !NameLess(b, a)
  {
    if NameLess(b, a) {
      NameLessTransitive(a, b, a);
      NameLessIrreflexive(a);
    }
  }

  /** Strictly ascending by name, so no name is repeated. */
  predicate SortedByName(s: seq<Annotation>)
  {
    forall i, j :: 0 <= i < j < |s| ==> NameLess(s[i].name, s[j].name)
  }

  /** Some annotation of `s` has the name: `TreeSet.contains` under the name comparator. */
  predicate HasName(s: seq<Annotation>, name: string)
  {
    exists k :: 0 <= k < |s| && s[k].name == name
  }

  /** The `TreeSet.add` of a name not yet present: the annotation goes in before the
      first one whose name is larger. */
  function InsertByName(s: seq<Annotation>, a: Annotation): seq<Annotation>
    decreases |s|
  {
    if |s| == 0 then [a]
    else if NameLess(a.name, s[0].name) then [a] + s
    else [s[0]] + InsertByName(s[1..], a)
  }

  /** Inserting adds exactly the one annotation. */
  lemma {:induction false} InsertByNameElements(s: seq<Annotation>, a: Annotation)
    ensures multiset(InsertByName(s, a)) == multiset(s) + multiset{a}
    decreases |s|
  {
    if |s| > 0 && !NameLess(a.name, s[0].name) {
      InsertByNameElements(s[1..], a);
      assert s == [s[0]] + s[1..];
    }
  }

  /** Inserting a new name keeps the order strict. */
  lemma {:induction false} InsertByNameSorted(s: seq<Annotation>, a: Annotation)
    requires SortedByName(s) && !HasName(s, a.name)
    ensures SortedByName(InsertByName(s, a))
    decreases |s|
  {
    if |s| == 0 {
    } else if NameLess(a.name, s[0].name) {
      forall j | 0 < j < |s| ensures NameLess(a.name, s[j].name) {
        NameLessTransitive(a.name, s[0].name, s[j].name);
      }
      var r := [a] + s;
      assert forall k :: 0 < k < |r| ==> r[k] == s[k - 1];
    } else {
      var tail := s[1..];
      assert forall k :: 0 <= k < |tail| ==> tail[k] == s[k + 1];
      assert !HasName(tail, a.name);
      InsertByNameSorted(tail, a);
      InsertByNameElements(tail, a);
      var rest := InsertByName(tail, a);
      NameLessTotal(a.name, s[0].name);
      assert s[0].name != a.name;
      forall k | 0 <= k < |rest| ensures NameLess(s[0].name, rest[k].name) {
        assert rest[k] in multiset(rest);
        if rest[k] != a {
          assert rest[k] in multiset(tail);
          var j :| 0 <= j < |tail| && tail[j] == rest[k];
          assert s[j + 1] == rest[k];
        }
      }
      var r := [s[0]] + rest;
      assert forall k :: 0 < k < |r| ==> r[k] == rest[k - 1];
    }
  }

  /** Inserting keeps the order strict and adds exactly the one annotation. */
  lemma InsertByNameCorrect(s: seq<Annotation>, a: Annotation)
    requires SortedByName(s) && !HasName(s, a.name)
    ensures SortedByName(InsertByName(s, a))
    ensures multiset(InsertByName(s, a)) == multiset(s) + multiset{a}
  {
    InsertByNameSorted(s, a);
    InsertByNameElements(s, a);
  }

  lemma HasNameSameElements(s: seq<Annotation>, t: seq<Annotation>, name: string)
    requires multiset(s) == multiset(t)
    ensures HasName(s, name) <==> HasName(t, name)
  {
    if HasName(s, name) {
      var k :| 0 <= k < |s| && s[k].name == name;
      assert s[k] in multiset(t);
      var j :| 0 <= j < |t| && t[j] == s[k];
    }
    if HasName(t, name) {
      var k :| 0 <= k < |t| && t[k].name == name;
      assert t[k] in multiset(s);
      var j :| 0 <= j < |s| && s[j] == t[k];
    }
  }

  /** Two name-sorted arrangements of the same annotations start with the same one. */
  lemma SortedHeadsEqual(s: seq<Annotation>, t: seq<Annotation>)
    requires SortedByName(s) && SortedByName(t) && multiset(s) == multiset(t) && |s| > 0
    ensures |t| > 0 && s[0] == t[0]
  {
    assert s[0] in multiset(t);
    assert t[0] in multiset(s);
    var j :| 0 <= j < |t| && t[j] == s[0];
    var i :| 0 <= i < |s| && s[i] == t[0];
    if i > 0 && j > 0 {
      NameLessAsymmetric(s[0].name, t[0].name);
      assert false;
    } else if i > 0 {
      NameLessIrreflexive(s[0].name);
      assert false;
    } else if j > 0 {
      NameLessIrreflexive(t[0].name);
      assert false;
    }
  }

  /** The tail of a name-sorted sequence is name-sorted and holds the rest of it. */
  lemma SortedTail(s: seq<Annotation>)
    requires SortedByName(s) && |s| > 0
    ensures SortedByName(s[1..]) && s == [s[0]] + s[1..]
    ensures multiset(s[1..]) == multiset(s) - multiset{s[0]}
  {
    assert s == [s[0]] + s[1..];
  }

  /** Two name-sorted arrangements of the same annotations are the same sequence: the
      normalised order does not depend on the order the annotations came in. */
  lemma {:induction false} SortedByNameUnique(s: seq<Annotation>, t: seq<Annotation>)
    requires SortedByName(s) && SortedByName(t) && multiset(s) == multiset(t)
    ensures s == t
    decreases |s|
  {
    if |s| > 0 {
      SortedHeadsEqual(s, t);
      SortedTail(s);
      SortedTail(t);
      SortedByNameUnique(s[1..], t[1..]);
    } else {
      assert |t| == |multiset(t)|;
    }
  }

  // ---------------------------------------------------------------------------------
  // normalizeAnnotations

  datatype NormalizeError = NullAnnotation | DuplicateAnnotation(name: string)

  /** The text of the error the original throws. */
  function NormalizeMessage(e: NormalizeError): string
  {
    match e
    case NullAnnotation => "null annotation given"
    case DuplicateAnnotation(name) => "Duplicate annotation: " + name
  }

  predicate AllPresent(annotations: seq<Option<Annotation>>)
  {
    forall k :: 0 <= k < |annotations| ==> annotations[k].Some?
  }

  function Values(annotations: seq<Option<Annotation>>): (r: seq<Annotation>)
    requires AllPresent(annotations)
    ensures |r| == |annotations| && forall k :: 0 <= k < |r| ==> r[k] == annotations[k].value
  {
    seq(|annotations|, k requires 0 <= k < |annotations| => annotations[k].value)
  }

  predicate DistinctNames(annotations: seq<Option<Annotation>>)
    requires AllPresent(annotations)
  {
    forall i, j :: 0 <= i < j < |annotations| ==> annotations[i].value.name != annotations[j].value.name
  }

  /** The first `n` annotations are all present with distinct names: the scan has not
      stopped before position `n`. */
  predicate CleanPrefix(annotations: seq<Option<Annotation>>, n: nat)
    requires n <= |annotations|
  {
    AllPresent(annotations[..n]) && DistinctNames(annotations[..n])
  }

  /** `normalizeAnnotations`: the annotations sorted by name. The first annotation that
      is missing, or whose name came before, stops the scan with the matching error. */
  method NormalizeAnnotations(annotations: seq<Option<Annotation>>) returns (r: Result<seq<Annotation>, NormalizeError>)
    ensures r.Ok? <==> AllPresent(annotations) && DistinctNames(annotations)
    ensures r.Ok? ==> SortedByName(r.value) && multiset(r.value) == multiset(Values(annotations))
    ensures r == Err(NullAnnotation) ==>
              exists k :: 0 <= k < |annotations| && CleanPrefix(annotations, k) && annotations[k].None?
    ensures r.Err? && r.error.DuplicateAnnotation? ==>
              exists j :: 0 <= j < |annotations| && CleanPrefix(annotations, j) && annotations[j].Some? &&
                          annotations[j].value.name == r.error.name &&
                          exists i :: 0 <= i < j && annotations[i].Some? && annotations[i].value.name == r.error.name
  {
    var sorted: seq<Annotation> := [];
    for i := 0 to |annotations|
      invariant forall k :: 0 <= k < i ==> annotations[k].Some?
      invariant forall k, l :: 0 <= k < l < i ==> annotations[k].value.name != annotations[l].value.name
      invariant SortedByName(sorted)
      invariant multiset(sorted) == multiset(Values(annotations[..i]))
    {
      var ann := annotations[i];
      if ann.None? {
        assert annotations[i].None? && CleanPrefix(annotations, i);
        return Err(NullAnnotation);
      }
      ghost var seen := Values(annotations[..i]);
      HasNameSameElements(sorted, seen, ann.value.name);
      if HasName(sorted, ann.value.name) {
        ghost var k :| 0 <= k < |seen| && seen[k].name == ann.value.name;
        assert annotations[k].value.name == annotations[i].value.name;
        assert CleanPrefix(annotations, i);
        return Err(DuplicateAnnotation(ann.value.name));
      }
      assert forall k :: 0 <= k < i ==> seen[k].name == annotations[k].value.name;
      assert Values(annotations[..i + 1]) == seen + [ann.value];
      InsertByNameCorrect(sorted, ann.value);
      sorted := InsertByName(sorted, ann.value);
    }
    assert annotations[..|annotations|] == annotations;
    assert AllPresent(annotations) && DistinctNames(annotations);
    r := Ok(sorted);
  }

  // ---------------------------------------------------------------------------------
  // The extractor

  /** `createAttributes`: attribute `i` has annotation `i`'s name and the attribute type
      of its type. */
  method CreateAttributes(annotations: seq<Annotation>) returns (attributes: array<Attribute>)
    ensures attributes.Length == |annotations|
    ensures forall i :: 0 <= i < |annotations| ==>
              attributes[i] == Attribute(annotations[i].name, MlDataTypeOf(annotations[i].dataType))
  {
    attributes := new Attribute[|annotations|](_ => Attribute("", ML_BOOLEAN));
    for i := 0 to attributes.Length
      invariant forall k :: 0 <= k < i ==>
                  attributes[k] == Attribute(annotations[k].name, MlDataTypeOf(annotations[k].dataType))
    {
      attributes[i] := Attribute(annotations[i].name, MlDataTypeOf(annotations[i].dataType));
    }
  }

  /** The line separator appended after each header message. */
  const LS: string := "\n"

  /** The messages of the annotations that reject the header, each followed by a line
      separator. */
  function HeaderMessages(annotations: seq<Annotation>, check: Annotation -> Option<string>): string
  {
    if |annotations| == 0 then ""
    else
      var m := check(annotations[|annotations| - 1]);
      HeaderMessages(annotations[..|annotations| - 1], check) + (if m.Some? then m.value + LS else "")
  }

  /** The messages are empty exactly when no annotation rejects the header. */
  lemma {:induction false} HeaderMessagesEmpty(annotations: seq<Annotation>, check: Annotation -> Option<string>)
    ensures HeaderMessages(annotations, check) == "" <==>
              forall k :: 0 <= k < |annotations| ==> check(annotations[k]).None?
    decreases |annotations|
  {
    if |annotations| > 0 {
      var init := annotations[..|annotations| - 1];
      HeaderMessagesEmpty(init, check);
      assert forall k :: 0 <= k < |init| ==> init[k] == annotations[k];
    }
  }

  /** The summary text of one annotation. */
  function Describe(a: Annotation): string
  {
    a.name + "(" + TypeName(a.dataType) + ")"
  }

  function Descriptions(annotations: seq<Annotation>): (r: seq<string>)
    ensures |r| == |annotations| && forall k :: 0 <= k < |r| ==> r[k] == Describe(annotations[k])
  {
    seq(|annotations|, k requires 0 <= k < |annotations| => Describe(annotations[k]))
  }

  /** When no name holds a comma, the summary splits at its commas into exactly one
      description per annotation. */
  lemma DescriptionsRoundTrip(annotations: seq<Annotation>)
    requires |annotations| >= 1
    requires forall k :: 0 <= k < |annotations| ==> ',' !in annotations[k].name
    ensures Fields(Join(Descriptions(annotations), ','), ',') == Descriptions(annotations)
  {
    var d := Descriptions(annotations);
    forall k | 0 <= k < |d| ensures ',' !in d[k] {
      assert ',' !in TypeName(annotations[k].dataType);
    }
    FieldsOfJoin(d, ',');
  }

  class AttributeExtractor {
    const annotations: seq<Annotation>
    const attributes: seq<Attribute>

    constructor (annotations: seq<Annotation>, attributes: seq<Attribute>)
      requires |annotations| == |attributes|
      ensures this.annotations == annotations && this.attributes == attributes
    {
      this.annotations := annotations;
      this.attributes := attributes;
    }

    /** The extractor for a list of annotations with their own attributes. */
    constructor FromAnnotations(annotations: seq<Annotation>)
      ensures this.annotations == annotations
      ensures |attributes| == |annotations|
      ensures forall i :: 0 <= i < |annotations| ==>
                attributes[i] == Attribute(annotations[i].name, MlDataTypeOf(annotations[i].dataType))
    {
      var created := CreateAttributes(annotations);
      this.annotations := annotations;
      this.attributes := created[..];
    }

    /** `checkHeader`: the header is rejected, with all messages gathered, exactly when
        some annotation has a message about it. The checks of the annotations against
        the header are supplied by `check`. */
    method CheckHeader(check: Annotation -> Option<string>) returns (r: Result<(), string>)
      ensures r.Err? <==> exists k :: 0 <= k < |annotations| && check(annotations[k]).Some?
      ensures r.Err? ==> r.error == HeaderMessages(annotations, check)
    {
      var messages := "";
      for i := 0 to |annotations|
        invariant messages == HeaderMessages(annotations[..i], check)
      {
        var message := check(annotations[i]);
        assert annotations[..i + 1][..i] == annotations[..i];
        if message.Some? {
          messages := messages + message.value + LS;
        }
      }
      assert annotations[..|annotations|] == annotations;
      HeaderMessagesEmpty(annotations, check);
      if |messages| != 0 {
        return Err(messages);
      }
      r := Ok(());
    }

    /** `toString`: the descriptions of the annotations, comma separated. */
    method ToString() returns (s: string)
      ensures s == Join(Descriptions(annotations), ',')
    {
      s := "";
      for i := 0 to |annotations|
        invariant s == Join(Descriptions(annotations[..i]), ',')
        invariant |s| == 0 <==> i == 0
      {
        ghost var before := Descriptions(annotations[..i]);
        var description := annotations[i].name + "(" + TypeName(annotations[i].dataType) + ")";
        assert description == Describe(annotations[i]) && |description| > 0;
        assert Descriptions(annotations[..i + 1]) == before + [description];
        JoinSnoc(before, description, ',');
        if |s| != 0 {
          s := s + ",";
        }
        s := s + description;
      }
      assert annotations[..|annotations|] == annotations;
    }
  }
}
