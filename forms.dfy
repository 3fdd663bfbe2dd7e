/** The record form built from a dataset's fields: which fields appear, which
    field class each one gets and which validator or widget goes with it,
    and the two validators whose behaviour the application relies on. */
module Forms {
  import opened Ascii
  import opened Optional

  /** A field of a dataset: its slug (`Field.field`) and its datatype. */
  datatype Field = Field(slug: string, dataType: string)

  /** Fields never shown on the record form. */
  const SkipFields: set<string> := {"entity", "end-date", "entry-date", "prefix"}

  datatype FieldClass = StringField | TextAreaField | URLField | DateField

  datatype Validator = CurieCheck | DataRequired | UrlFormat

  datatype Widget = DefaultWidget | GovDateInput

  /** One form field: its class, its validators and its widget. */
  datatype FormField = FormField(fieldClass: FieldClass, validators: seq<Validator>, widget: Widget)

  /** The field added for the free-text notes of an edit. */
  const EditNotesField: FormField := FormField(TextAreaField, [DataRequired], DefaultWidget)

  /** Python's `s.split(sep)` for a one-character separator. */
  function Split(s: string, sep: char): (parts: seq<string>)
    ensures |parts| >= 1
  {
    if s == [] then [""]
    else if s[0] == sep then [""] + Split(s[1..], sep)
    else
      var rest := Split(s[1..], sep);
      [[s[0]] + rest[0]] + rest[1..]
  }

  lemma {:induction false} SplitCount(s: string, sep: char)
    ensures |Split(s, sep)| == Count(s, sep) + 1
  {
    if s != [] {
      SplitCount(s[1..], sep);
    }
  }

  /** What follows the field name in the message of a failed curie check. */
  const CurieHint: string := " is a curie and should be in the format 'namespace:identifier'"

  /** `curie_check`: the error it raises, or `None` when the value passes. */
  function CurieCheckError(name: string, data: string): (r: Option<string>)
    ensures r.Some? ==> r.value == name + CurieHint
    ensures ':' !in data ==> r.Some?
  {
    SplitCount(data, ':');
    if |Split(data, ':')| != 2 then
      Some(name + CurieHint)
    else
      None
  }

  /** A curie passes exactly when it holds one colon. */
  lemma CurieCheckOneColon(name: string, data: string)
    ensures CurieCheckError(name, data).None? <==> Count(data, ':') == 1
    ensures CurieCheckError(name, data).Some? ==>
      CurieCheckError(name, data).value == name + CurieHint
  {
    SplitCount(data, ':');
  }

  lemma CurieCheckAcceptsExample()
    ensures CurieCheckError("organisation", "foo:bar").None?
  {
    CurieCheckOneColon("organisation", "foo:bar");
    assert Count("foo:bar", ':') == 1;
  }

  lemma CurieCheckRejectsExample()
    ensures CurieCheckError("organisation", "foo")
      == Some("organisation" + CurieHint)
  {
    SplitCount("foo", ':');
    assert ':' !in "foo";
    assert |Split("foo", ':')| == 1;
  }

  /** WTForms' `DataRequired`: a missing value or one holding only whitespace
      fails with its default message. */
  function DataRequiredError(data: Option<string>): Option<string>
  {
    if data.None? || IsPyBlank(data.value) then Some("This field is required.") else None
  }

  /** `FormBuilder.field_types.get(datatype)`. */
  function FieldClassFor(dataType: string): Option<FieldClass>
  {
    if dataType == "curie" || dataType == "string" then Some(StringField)
    else if dataType == "text" then Some(TextAreaField)
    else if dataType == "url" then Some(URLField)
    else if dataType == "datetime" then Some(DateField)
    else None
  }

  /** The form field `build` makes for one field, if any. */
  function FormFieldFor(f: Field): (r: Option<FormField>)
    ensures r.Some? <==> FieldClassFor(f.dataType).Some?
    ensures r.Some? ==> r.value.fieldClass == FieldClassFor(f.dataType).value
    ensures r.Some? ==> |r.value.validators| <= 1
  {
    match FieldClassFor(f.dataType)
    case None => None
    case Some(c) =>
      if f.dataType == "curie" then Some(FormField(c, [CurieCheck], DefaultWidget))
      else if f.slug == "name" || f.slug == "reference" then Some(FormField(c, [DataRequired], DefaultWidget))
      else if Contains(f.slug, "url") then Some(FormField(c, [UrlFormat], DefaultWidget))
      else if f.dataType == "datetime" then Some(FormField(c, [], GovDateInput))
      else Some(FormField(c, [], DefaultWidget))
  }

  predicate IsRequiredSlug(slug: string) { slug == "name" || slug == "reference" }

  /** Which fields get a form field, with which class, and which single rule
      decides the validator: curie first, then name/reference, then a slug
      containing "url", then the date widget for datetimes. */
  lemma FormFieldDispatch(f: Field)
    ensures FormFieldFor(f).Some? <==> f.dataType in {"curie", "string", "text", "url", "datetime"}
    ensures FormFieldFor(f).Some? ==>
      (FormFieldFor(f).value.fieldClass ==
         if f.dataType == "text" then TextAreaField
         else if f.dataType == "url" then URLField
         else if f.dataType == "datetime" then DateField
         else StringField)
    ensures FormFieldFor(f).Some? ==>
      (FormFieldFor(f).value.validators == [CurieCheck] <==> f.dataType == "curie")
    ensures FormFieldFor(f).Some? ==>
      (FormFieldFor(f).value.validators == [DataRequired] <==>
         f.dataType != "curie" && IsRequiredSlug(f.slug))
    ensures FormFieldFor(f).Some? ==>
      (FormFieldFor(f).value.validators == [UrlFormat] <==>
         f.dataType != "curie" && !IsRequiredSlug(f.slug) && Contains(f.slug, "url"))
    ensures FormFieldFor(f).Some? ==>
      (FormFieldFor(f).value.widget == GovDateInput <==>
         f.dataType == "datetime" && !IsRequiredSlug(f.slug) && !Contains(f.slug, "url"))
    ensures FormFieldFor(f).Some? ==>
      (FormFieldFor(f).value.validators == [] <==>
         f.dataType != "curie" && !IsRequiredSlug(f.slug) && !Contains(f.slug, "url"))
  {
  }

  /** An empty `name` or `reference` (of any datatype but curie) fails
      validation with "This field is required.". */
  lemma RequiredFieldsRejectEmpty(f: Field, data: Option<string>)
    requires IsRequiredSlug(f.slug) && f.dataType in {"string", "text", "url", "datetime"}
    requires data.None? || IsPyBlank(data.value)
    ensures FormFieldFor(f).Some? && FormFieldFor(f).value.validators == [DataRequired]
    ensures DataRequiredError(data) == Some("This field is required.")
  {
  }

  /** The unit test of the required fields: a `name` and a `reference`
      string field left empty both fail with the required message. */
  lemma RequiredFieldsExample()
    ensures FormFieldFor(Field("name", "string")) == Some(FormField(StringField, [DataRequired], DefaultWidget))
    ensures FormFieldFor(Field("reference", "string")) == Some(FormField(StringField, [DataRequired], DefaultWidget))
    ensures DataRequiredError(None) == Some("This field is required.")
  {
    RequiredFieldsRejectEmpty(Field("name", "string"), None);
    RequiredFieldsRejectEmpty(Field("reference", "string"), None);
  }

  /** The fields `FormBuilder.__init__` keeps: all but the skipped slugs. */
  function FormFields(fields: seq<Field>): seq<Field>
  {
    if fields == [] then []
    else
      var kept := FormFields(fields[..|fields| - 1]);
      if fields[|fields| - 1].slug in SkipFields then kept else kept + [fields[|fields| - 1]]
  }

  lemma {:induction false} FormFieldsMembers(fields: seq<Field>)
    ensures forall f :: f in FormFields(fields) <==> f in fields && f.slug !in SkipFields
  {
    if fields != [] {
      FormFieldsMembers(fields[..|fields| - 1]);
      assert fields == fields[..|fields| - 1] + [fields[|fields| - 1]];
    }
  }

  /** Filtering distributes over concatenation: the kept fields stay in
      their original relative order. */
  lemma {:induction false} FormFieldsAppend(a: seq<Field>, b: seq<Field>)
    ensures FormFields(a + b) == FormFields(a) + FormFields(b)
    decreases |b|
  {
    if b == [] {
      assert a + b == a;
    } else {
      var b' := b[..|b| - 1];
      assert (a + b)[..|a + b| - 1] == a + b';
      FormFieldsAppend(a, b');
    }
  }

  /** The form fields of the fields in order, later fields with the same slug
      overwriting earlier ones as `setattr` does. */
  function FieldsForm(fields: seq<Field>): map<string, FormField>
  {
    if fields == [] then map[]
    else
      var form := FieldsForm(fields[..|fields| - 1]);
      var f := fields[|fields| - 1];
      match FormFieldFor(f)
      case None => form
      case Some(ff) => form[f.slug := ff]
  }

  /** The form `build` returns. */
  function FormOf(fields: seq<Field>, includeEditNotes: bool): map<string, FormField>
  {
    if includeEditNotes then FieldsForm(fields)["edit_notes" := EditNotesField] else FieldsForm(fields)
  }

  lemma {:induction false} FieldsFormKeys(fields: seq<Field>)
    ensures forall k :: k in FieldsForm(fields) <==>
      exists i :: 0 <= i < |fields| && fields[i].slug == k && FormFieldFor(fields[i]).Some?
  {
    if fields != [] {
      var init := fields[..|fields| - 1];
      FieldsFormKeys(init);
      forall k ensures k in FieldsForm(fields) <==>
        exists i :: 0 <= i < |fields| && fields[i].slug == k && FormFieldFor(fields[i]).Some?
      {
        if k in FieldsForm(fields) && k !in FieldsForm(init) {
          assert fields[|fields| - 1].slug == k;
        }
        if exists i :: 0 <= i < |fields| && fields[i].slug == k && FormFieldFor(fields[i]).Some? {
          var i :| 0 <= i < |fields| && fields[i].slug == k && FormFieldFor(fields[i]).Some?;
          if i < |fields| - 1 {
            assert init[i] == fields[i];
          }
        }
      }
    }
  }

  predicate DistinctSlugs(fields: seq<Field>) {
    forall i, j :: 0 <= i < j < |fields| ==> fields[i].slug != fields[j].slug
  }

  lemma {:induction false} FieldsFormValues(fields: seq<Field>)
    requires DistinctSlugs(fields)
    ensures forall i :: 0 <= i < |fields| && FormFieldFor(fields[i]).Some? ==>
      fields[i].slug in FieldsForm(fields) && FieldsForm(fields)[fields[i].slug] == FormFieldFor(fields[i]).value
  {
    if fields != [] {
      var init := fields[..|fields| - 1];
      FieldsFormValues(init);
      forall i | 0 <= i < |fields| && FormFieldFor(fields[i]).Some?
        ensures fields[i].slug in FieldsForm(fields) && FieldsForm(fields)[fields[i].slug] == FormFieldFor(fields[i]).value
      {
        if i < |fields| - 1 {
          assert init[i] == fields[i];
        }
      }
    }
  }

  /** The built form has a field for exactly the fields whose datatype has a
      field class, plus `edit_notes` when asked for; with distinct slugs
      each field's entry is the one the dispatch chose for it, and the
      `edit_notes` entry is a required text area. */
  lemma FormOfContents(fields: seq<Field>, includeEditNotes: bool)
    ensures forall k :: k in FormOf(fields, includeEditNotes) <==>
      (includeEditNotes && k == "edit_notes") ||
      exists i :: 0 <= i < |fields| && fields[i].slug == k && FormFieldFor(fields[i]).Some?
    ensures includeEditNotes ==> FormOf(fields, includeEditNotes)["edit_notes"] == EditNotesField
    ensures DistinctSlugs(fields) ==>
      forall i :: (0 <= i < |fields| && FormFieldFor(fields[i]).Some? &&
                   (!includeEditNotes || fields[i].slug != "edit_notes")) ==>
        FormOf(fields, includeEditNotes)[fields[i].slug] == FormFieldFor(fields[i]).value
  {
    FieldsFormKeys(fields);
    if DistinctSlugs(fields) {
      FieldsFormValues(fields);
    }
  }

  /** `FormBuilder`: the fields the form will show, and whether it asks for
      edit notes. */
  class FormBuilder {
    var fields: seq<Field>
    var includeEditNotes: bool

    /** `FormBuilder.__init__`: keeps the fields whose slug is not skipped.
        Python's default `include_edit_notes=False` is passed explicitly. */
    constructor (fields: seq<Field>, includeEditNotes: bool)
      ensures this.fields == FormFields(fields)
      ensures this.includeEditNotes == includeEditNotes
    {
      this.fields := [];
      this.includeEditNotes := includeEditNotes;
      new;
      for i := 0 to |fields|
        invariant this.fields == FormFields(fields[..i])
        invariant this.includeEditNotes == includeEditNotes
      {
        assert fields[..i + 1][..i] == fields[..i];
        if fields[i].slug !in SkipFields {
          this.fields := this.fields + [fields[i]];
        }
      }
      assert fields[..|fields|] == fields;
    }

    /** `FormBuilder.build`: one form field per kept field that has a field
        class, then `edit_notes` if asked for. */
    method Build() returns (form: map<string, FormField>)
      ensures form == FormOf(fields, includeEditNotes)
    {
      form := map[];
      for i := 0 to |fields|
        invariant form == FieldsForm(fields[..i])
      {
        assert fields[..i + 1][..i] == fields[..i];
        var formField := FormFieldFor(fields[i]);
        if formField.Some? {
          form := form[fields[i].slug := formField.value];
        }
      }
      assert fields[..|fields|] == fields;
      if includeEditNotes {
        form := form["edit_notes" := EditNotesField];
      }
    }
  }
}
