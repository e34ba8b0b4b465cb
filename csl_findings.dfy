// Two places where `correctField` and `correctType` do not do what the
// cleaner is evidently meant to do.
//
// `correctType` expects the type to be a string after it has been cleaned
// as a language. Under best guess a type that is not a string (`null`,
// `true`, an object) is cleaned to `undefined`, and `type.toLowerCase()`
// then throws a `TypeError`, so one odd `type` makes `parseCsl` throw for
// the whole list. It is evidently meant to be dropped like any other
// unusable value.
//
// `correctField` turns a non-empty array into its first element under best
// guess before it looks at the types the field takes. `categories` and
// `custom` take objects, and an array is an object, but the array of
// strings `categories` holds is replaced by its first string, which is not
// an object, and dropped. Without best guess the same array is kept. The
// array is evidently meant to be kept where objects are taken.

module CslFindings {
  import opened Base
  import opened JsObject
  import opened JsValue
  import opened Csl
  import opened CslProps

  /** `fieldTypes.type` is the item type. */
  lemma TypeIsTheItemType()
    ensures FieldTypeOf("type") == Some(TypeField)
  {
    assert "type" !in NameListFields && "type" !in DateFields;
  }

  /** The `type` field is corrected by `correctType`. */
  lemma TypeFieldCorrected(v: Value, bg: bool, reading: Reading, parseName: string -> Value)
    ensures CorrectField("type", v, bg, reading, parseName) == CorrectType(v, bg, reading)
  {
    TypeIsTheItemType();
  }

  /** `fieldTypes.categories` is `'object'`. */
  lemma CategoriesTakeObjects()
    ensures FieldTypeOf("categories") == Some(Types(["object"]))
  {
    assert "categories" !in NameListFields && "categories" !in DateFields;
    assert "categories" in ObjectFields;
  }

  /** As written, a `type` of `null` or `true` throws under best guess. */
  lemma TypeNullThrows()
    ensures CorrectType(Null, true, AsWritten).Err?
    ensures CorrectType(Bool(true), true, AsWritten).Err?
  {
    assert CorrectPlain(LanguageTypes, Null, true, AsWritten) == Undefined;
    assert CorrectPlain(LanguageTypes, Bool(true), true, AsWritten) == Undefined;
  }

  /** As written, so does cleaning an entry that has such a type. */
  lemma TypeNullEntryThrows(parseName: string -> Value)
    ensures CleanEntry(Obj([("type", Null)]), true, AsWritten, parseName).Err?
  {
    TypeNullThrows();
    TypeFieldCorrected(Null, true, AsWritten, parseName);
    SingleFieldEntry("type", Null, true, AsWritten, parseName);
  }

  /** Read as intended, the entry with a `null` type is cleaned to an empty
      entry. */
  lemma TypeNullDropped(parseName: string -> Value)
    ensures CleanEntry(Obj([("type", Null)]), true, Intended, parseName) == Ok(Obj([]))
  {
    assert CorrectPlain(LanguageTypes, Null, true, Intended) == Undefined;
    TypeFieldCorrected(Null, true, Intended, parseName);
    SingleFieldEntry("type", Null, true, Intended, parseName);
  }

  /** As written, `categories: ["a"]` is dropped under best guess and kept
      without it. */
  lemma CategoriesDropped(parseName: string -> Value)
    ensures CorrectField("categories", Arr([Str("a")]), true, AsWritten, parseName) == Ok(Undefined)
    ensures CorrectField("categories", Arr([Str("a")]), false, AsWritten, parseName) == Ok(Arr([Str("a")]))
  {
    CategoriesTakeObjects();
    FirstStringDropped();
    assert CorrectPlain(["object"], Arr([Str("a")]), false, AsWritten) == Arr([Str("a")]);
  }

  /** As written under best guess, `["a"]` is read as `"a"`, which is no
      object. */
  lemma FirstStringDropped()
    ensures CorrectPlain(["object"], Arr([Str("a")]), true, AsWritten) == Undefined
  {
    assert TypeOf(Str("a")) !in ["object"];
    assert CorrectPlain(["object"], Str("a"), true, AsWritten) == Undefined;
  }

  /** Read as intended, any array of categories is kept in both modes. */
  lemma CategoriesKept(items: seq<Value>, bg: bool, parseName: string -> Value)
    ensures CorrectField("categories", Arr(items), bg, Intended, parseName) == Ok(Arr(items))
  {
    CategoriesTakeObjects();
    ListedTypeKept(["object"], Arr(items), bg);
  }
}
