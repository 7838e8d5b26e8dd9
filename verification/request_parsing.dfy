/** `parse_and_validate` in api/libs/request_parsing.py: turning the
    multi-valued query string into the dictionary a validation model is
    built from. The model's fields are a map from field name to whether
    the field is annotated as a list; validation itself is not part of
    this model. */
module RequestParsing {
  import opened Base

  /** A parsed value: the whole list for a list field, otherwise the first
      value or `None` for an empty list. */
  datatype Parsed = ListValue(values: seq<string>) | Scalar(value: Option<string>)

  /** One field's value from its raw list. */
  function ParseField(isList: bool, values: seq<string>): (p: Parsed)
    ensures isList ==> p == ListValue(values)
    ensures !isList && |values| > 0 ==> p == Scalar(Some(values[0]))
    ensures !isList && |values| == 0 ==> p == Scalar(None)
  {
    if isList then ListValue(values)
    else if |values| > 0 then Scalar(Some(values[0]))
    else Scalar(None)
  }

  /** The dictionary passed to validation: only declared fields that occur
      in the query string. */
  function ParseArgs(fields: map<string, bool>, raw: map<string, seq<string>>): (r: map<string, Parsed>)
    ensures r.Keys == fields.Keys * raw.Keys
    ensures forall name :: name in r ==> r[name] == ParseField(fields[name], raw[name])
  {
    map name | name in fields.Keys * raw.Keys :: ParseField(fields[name], raw[name])
  }

  /** The single-valued view of the query string (`to_dict(flat=True)`):
      each key's first value. */
  function FlatArgs(raw: map<string, seq<string>>): (r: map<string, string>)
    ensures r.Keys == set k | k in raw && |raw[k]| > 0
    ensures forall k :: k in r ==> r[k] == raw[k][0]
  {
    map k | k in raw && |raw[k]| > 0 :: raw[k][0]
  }

  /** For a scalar field the parsed value is what the single-valued view
      holds, and for a list field it is every value, in order: the list is
      kept only where the model asks for one. */
  lemma ScalarFieldsMatchFlatView(fields: map<string, bool>, raw: map<string, seq<string>>, name: string)
    requires name in fields && name in raw
    ensures !fields[name] && name in FlatArgs(raw) ==>
              ParseArgs(fields, raw)[name] == Scalar(Some(FlatArgs(raw)[name]))
    ensures !fields[name] && name !in FlatArgs(raw) ==> ParseArgs(fields, raw)[name] == Scalar(None)
    ensures fields[name] ==> ParseArgs(fields, raw)[name] == ListValue(raw[name])
  {
  }

  /** Undeclared query parameters never reach validation, and a declared
      field that is absent from the query string is left to its default. */
  lemma OnlyDeclaredAndPresent(fields: map<string, bool>, raw: map<string, seq<string>>, name: string)
    ensures name !in fields ==> name !in ParseArgs(fields, raw)
    ensures name !in raw ==> name !in ParseArgs(fields, raw)
  {
  }
}
