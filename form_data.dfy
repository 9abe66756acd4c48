/** The browser's `FormData`: an ordered list of name/value entries. */
module FormData {
  import opened Wrappers

  type Form = seq<(string, string)>

  /** `formData.get(name)`: the value of the first entry with that name, `null` when none. */
  function Get(form: Form, name: string): (r: Option<string>)
    ensures r.Some? ==> (name, r.value) in form
    ensures r.None? <==> forall i :: 0 <= i < |form| ==> form[i].0 != name
  {
    if form == [] then None
    else if form[0].0 == name then Some(form[0].1)
    else Get(form[1..], name)
  }

  /** `formData.append(name, value)`: a new last entry. */
  function Append(form: Form, name: string, value: string): Form
  {
    form + [(name, value)]
  }

  /** JavaScript truthiness of `string | null`: present and not empty. */
  predicate Truthy(v: Option<string>)
  {
    v.Some? && v.value != ""
  }

  /** `value || undefined` (or `|| null`) of a field: the value when it is truthy, else absent. */
  function OrAbsent(v: Option<string>): (r: Option<string>)
    ensures r.Some? <==> Truthy(v)
    ensures r.Some? ==> r == v
  {
    if Truthy(v) then v else None
  }

  /** An appended entry is what `get` sees only when no earlier entry has that name. */
  lemma {:induction false} GetAppend(form: Form, name: string, value: string, other: string)
    ensures Get(Append(form, name, value), other)
         == if other == name && Get(form, name).None? then Some(value) else Get(form, other)
  {
    if form != [] {
      assert Append(form, name, value)[1..] == Append(form[1..], name, value);
      GetAppend(form[1..], name, value, other);
    }
  }
}
