/** The `order` form field of modules and lessons: how a create reads it and how an update
    reads it. */
module OrderField {
  import opened Wrappers
  import opened FormData
  import opened Numbers
  import Text

  /** `parseInt(formData.get('order') as string) || 0`: the order of a new module or lesson. */
  function CreateOrder(form: Form): int
  {
    OrZero(ParseField(Get(form, "order")))
  }

  /** A new row's order is the submitted decimal numeral, and 0 when the field is absent. */
  lemma CreateOrderSpec(form: Form, n: nat)
    ensures Get(form, "order") == Some(NatToString(n)) ==> CreateOrder(form) == n
    ensures Get(form, "order").None? ==> CreateOrder(form) == 0
  {
    ParseIntOfNatToString(n);
    AbsentFieldIsNaN();
  }

  /** What an update does with `formData.get('order')`: an absent or empty field leaves the
      order alone; anything else is `parseInt` of it, which may be `NaN`. */
  datatype OrderChange = Keep | SetTo(value: int) | NotANumber

  function OrderUpdate(field: Option<string>): (r: OrderChange)
    ensures r.Keep? <==> !Truthy(field)
    ensures r.SetTo? ==> ParseInt(field.value) == Some(r.value)
    ensures r.NotANumber? <==> Truthy(field) && ParseInt(field.value).None?
  {
    if !Truthy(field) then Keep
    else match ParseInt(field.value)
      case None => NotANumber
      case Some(v) => SetTo(v)
  }

  /** The `order` handed to `update`: a number, or `undefined` to leave the column alone.
      A `NaN` is refused before this point. */
  function OrderArg(change: OrderChange): Option<int>
  {
    if change.SetTo? then Some(change.value) else None
  }

  /** An update reads back a numeral the editor wrote and leaves the order alone for an
      absent or empty field. */
  lemma OrderUpdateSpec(n: nat)
    ensures OrderUpdate(Some(NatToString(n))) == SetTo(n)
    ensures OrderUpdate(None) == Keep && OrderUpdate(Some("")) == Keep
  {
    ParseIntOfNatToString(n);
  }

  /** A present, non-empty field meets `NaN` exactly when no number can be read from it: after
      the leading whitespace and the sign there is no decimal digit, or a `0x` prefix without a
      hexadecimal digit after it. */
  lemma OrderUpdateNaN(s: string)
    requires s != ""
    ensures var u := UnsignedPart(s);
      OrderUpdate(Some(s)) == NotANumber <==>
        || u == [] || !IsDecimalDigit(u[0])
        || (HasHexPrefix(u) && (|u| == 2 || DigitValue(u[2], 16).None?))
  {
    ParseIntNaN(s);
  }
}
