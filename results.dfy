/** The dictionaries every validation operation returns. */
module Results {
  import opened Json

  /** `{'status': ..., 'error': ...}` */
  datatype Report = Report(status: bool, error: Option<seq<string>>)

  /** `{'status': ..., 'error': ..., 'json_data': ...}` */
  datatype UploadReport = UploadReport(status: bool, error: Option<seq<string>>, jsonData: Option<Value>)

  /** The closing `if len(list_error) > 0` of each operation: failure carries the whole
      non-empty error list, success carries no list at all. */
  function ReportOf(errors: seq<string>): (r: Report)
    ensures r.status <==> errors == []
    ensures r.status <==> r.error.None?
    ensures r.error.Some? ==> r.error.value == errors
  {
    if |errors| > 0 then Report(false, Some(errors)) else Report(true, None)
  }

  /** The error list a caught exception contributes: its message, or nothing. */
  function ErrorsOf(failure: Option<string>): (r: seq<string>)
    ensures r == [] <==> failure.None?
    ensures |r| <= 1
    ensures forall msg :: msg in r ==> failure == Some(msg)
  {
    match failure
    case None => []
    case Some(msg) => [msg]
  }

  /** The error lists of a walk over `xs`, one list per element, joined in walk order. */
  function Collect<T>(xs: seq<T>, errorsOf: T -> seq<string>): seq<string>
  {
    if xs == [] then [] else Collect(xs[..|xs| - 1], errorsOf) + errorsOf(xs[|xs| - 1])
  }

  /** The walk reports nothing exactly when no element has an error. */
  lemma {:induction false} CollectEmpty<T>(xs: seq<T>, errorsOf: T -> seq<string>)
    ensures Collect(xs, errorsOf) == [] <==> forall i :: 0 <= i < |xs| ==> errorsOf(xs[i]) == []
  {
    if xs != [] {
      var n := |xs| - 1;
      CollectEmpty(xs[..n], errorsOf);
      assert forall i :: 0 <= i < n ==> xs[..n][i] == xs[i];
    }
  }

  /** Walking one more element appends that element's errors. */
  lemma CollectSnoc<T>(xs: seq<T>, i: nat, errorsOf: T -> seq<string>)
    requires i < |xs|
    ensures Collect(xs[..i + 1], errorsOf) == Collect(xs[..i], errorsOf) + errorsOf(xs[i])
  {
    assert xs[..i + 1][..i] == xs[..i];
  }

  /** A walk over two parts gives the two parts' errors, in order: an error in the first part
      does not stop the walk over the second. */
  lemma {:induction false} CollectAppend<T>(a: seq<T>, b: seq<T>, errorsOf: T -> seq<string>)
    ensures Collect(a + b, errorsOf) == Collect(a, errorsOf) + Collect(b, errorsOf)
    decreases |b|
  {
    if b == [] {
      assert a + b == a;
    } else {
      var b' := b[..|b| - 1];
      assert (a + b)[..|a + b| - 1] == a + b';
      assert (a + b)[|a + b| - 1] == b[|b| - 1];
      CollectAppend(a, b', errorsOf);
    }
  }
}
