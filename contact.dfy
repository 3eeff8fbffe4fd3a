/** The contact form: a three-field record edited one field at a time. */
module Contact {

  datatype FormData = FormData(name: string, email: string, message: string)

  /** The `name` attribute of the form's three inputs. */
  datatype Field = Name | Email | Message

  function Get(form: FormData, field: Field): string {
    match field
    case Name => form.name
    case Email => form.email
    case Message => form.message
  }

  const EmptyForm := FormData("", "", "")

  /** `{...formData, [field]: value}`: the named field takes the new value and
      the other two keep theirs. */
  function Update(form: FormData, field: Field, value: string): (r: FormData)
    ensures Get(r, field) == value
    ensures forall g: Field :: g != field ==> Get(r, g) == Get(form, g)
  {
    match field
    case Name => form.(name := value)
    case Email => form.(email := value)
    case Message => form.(message := value)
  }

  /** A form is determined by its three fields. */
  lemma FieldsDetermineForm(a: FormData, b: FormData)
    requires forall g: Field :: Get(a, g) == Get(b, g)
    ensures a == b
  {
    assert Get(a, Name) == Get(b, Name);
    assert Get(a, Email) == Get(b, Email);
    assert Get(a, Message) == Get(b, Message);
  }

  /** The same change applied twice is the same change applied once. */
  lemma UpdateIdempotent(form: FormData, field: Field, value: string)
    ensures Update(Update(form, field, value), field, value) == Update(form, field, value)
  {
    var once := Update(form, field, value);
    FieldsDetermineForm(Update(once, field, value), once);
  }

  /** A later change to a field overrides an earlier one to the same field. */
  lemma UpdateOverrides(form: FormData, field: Field, v: string, w: string)
    ensures Update(Update(form, field, v), field, w) == Update(form, field, w)
  {
    FieldsDetermineForm(Update(Update(form, field, v), field, w), Update(form, field, w));
  }

  /** Changes to different fields commute. */
  lemma UpdatesCommute(form: FormData, f: Field, v: string, g: Field, w: string)
    requires f != g
    ensures Update(Update(form, f, v), g, w) == Update(Update(form, g, w), f, v)
  {
    FieldsDetermineForm(Update(Update(form, f, v), g, w), Update(Update(form, g, w), f, v));
  }

  /** Writing back a field's current value changes nothing. */
  lemma UpdateWithSameValue(form: FormData, field: Field)
    ensures Update(form, field, Get(form, field)) == form
  {
    FieldsDetermineForm(Update(form, field, Get(form, field)), form);
  }

  class ContactForm {
    var formData: FormData

    constructor ()
      ensures formData == EmptyForm
      ensures forall g: Field :: Get(formData, g) == ""
    {
      formData := EmptyForm;
    }

    /** The change handler of the input named `field`. */
    method HandleChange(field: Field, value: string)
      modifies this
      ensures formData == Update(old(formData), field, value)
      ensures Get(formData, field) == value
      ensures forall g: Field :: g != field ==> Get(formData, g) == Get(old(formData), g)
    {
      formData := Update(formData, field, value);
    }

    /** The submit handler: it hands the current form to the log and changes
        no state. */
    method HandleSubmit() returns (submitted: FormData)
      ensures submitted == formData
    {
      submitted := formData;
    }
  }
}
