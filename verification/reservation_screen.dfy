/** The reservation page of the web client (Reservation.jsx): the form record, the
    request body built from it, and the list of the user's reservations. */
module ReservationScreen {
  import opened Common
  import opened Cookies
  import opened Models

  /** The names of the form inputs. */
  datatype Field = Date | Time | People | Phone | Comments

  datatype FormData = FormData(date: string, time: string, people: string, phone: string, comments: string)

  const EmptyForm := FormData("", "", "", "", "")

  function Get(f: FormData, field: Field): string {
    match field
    case Date => f.date
    case Time => f.time
    case People => f.people
    case Phone => f.phone
    case Comments => f.comments
  }

  /** `handleChange`: the record with one input's value replaced. */
  function Set(f: FormData, field: Field, value: string): (r: FormData)
    ensures Get(r, field) == value
    ensures forall other :: other != field ==> Get(r, other) == Get(f, other)
  {
    match field
    case Date => f.(date := value)
    case Time => f.(time := value)
    case People => f.(people := value)
    case Phone => f.(phone := value)
    case Comments => f.(comments := value)
  }

  /** Replacing a value twice keeps the second; replacing it with what it holds changes
      nothing. */
  lemma SetLaws(f: FormData, field: Field, v: string, w: string)
    ensures Set(Set(f, field, v), field, w) == Set(f, field, w)
    ensures Set(f, field, Get(f, field)) == f
  {
  }

  /** The JSON body posted to the reservations endpoint. */
  datatype ReservationBody = ReservationBody(
    date: string, time: string, phoneNumber: string, numberOfGuests: string, message: string)

  /** The body's fields under the server's names. */
  function BodyOf(f: FormData): ReservationBody {
    ReservationBody(f.date, f.time, f.phone, f.people, f.comments)
  }

  /** Reading a form back from a body. */
  function FormOf(b: ReservationBody): FormData {
    FormData(b.date, b.time, b.numberOfGuests, b.phoneNumber, b.message)
  }

  /** Every form input reaches the body, each under its own name: the form can be read
      back from the body, and back again. */
  lemma BodyRoundTrip(f: FormData, b: ReservationBody)
    ensures FormOf(BodyOf(f)) == f
    ensures BodyOf(FormOf(b)) == b
  {
  }

  class ReservationPage {
    var formData: FormData
    var reservations: seq<Reservation>
    var loading: bool

    constructor ()
      ensures formData == EmptyForm && reservations == [] && loading
    {
      formData := EmptyForm;
      reservations := [];
      loading := true;
    }

    /** `handleChange` for the input named `field`. */
    method HandleChange(field: Field, value: string)
      modifies this`formData
      ensures formData == Set(old(formData), field, value)
    {
      formData := Set(formData, field, value);
    }

    /** `handleSubmit` up to the request: a missing or empty token stops it; otherwise the
        body built from the form is posted. */
    method HandleSubmit(cookie: string) returns (sent: Option<ReservationBody>)
      ensures Truthy(ReservationToken(cookie)) <==> sent.Some?
      ensures sent.Some? ==> FormOf(sent.value) == formData
    {
      var authToken := ReservationToken(cookie);
      if !Truthy(authToken) {
        return None;
      }
      sent := Some(BodyOf(formData));
    }

    /** `fetchReservations`: without a token it stops before the request, and loading
        stays on. Otherwise a response's results replace the list (a body without
        results gives the empty list), a failure keeps it, and loading ends. */
    method FetchReservations(cookie: string, fetched: Fetched<Option<seq<Reservation>>>)
      modifies this`reservations, this`loading
      ensures !Truthy(ReservationToken(cookie)) ==> reservations == old(reservations) && loading == old(loading)
      ensures Truthy(ReservationToken(cookie)) ==>
        && !loading
        && reservations == (if fetched.Loaded? then fetched.data.GetOr([]) else old(reservations))
    {
      var authToken := ReservationToken(cookie);
      if !Truthy(authToken) {
        return;
      }
      if fetched.Loaded? {
        reservations := fetched.data.GetOr([]);
      }
      loading := false;
    }
  }
}
