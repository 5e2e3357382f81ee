/** Rust's `Option` and `Result`, with the combinators the modelled code uses. */
module Wrappers {

  datatype Option<T> = None | Some(value: T)

  datatype Result<T, E> = Ok(value: T) | Err(error: E)

  /** `Option::map` */
  function MapOption<T, U>(o: Option<T>, f: T -> U): (r: Option<U>)
    ensures r.Some? <==> o.Some?
    ensures o.Some? ==> r.value == f(o.value)
  {
    match o
    case None => None
    case Some(x) => Some(f(x))
  }

  /** `Option::and_then` */
  function AndThenOption<T, U>(o: Option<T>, f: T -> Option<U>): (r: Option<U>)
    ensures o.None? ==> r.None?
    ensures o.Some? ==> r == f(o.value)
  {
    match o
    case None => None
    case Some(x) => f(x)
  }

  /** `Option::flatten` */
  function FlattenOption<T>(o: Option<Option<T>>): (r: Option<T>)
    ensures r.Some? <==> o.Some? && o.value.Some?
    ensures r.Some? ==> r.value == o.value.value
  {
    match o
    case None => None
    case Some(inner) => inner
  }

  /** `Result::ok` */
  function ResultOk<T, E>(r: Result<T, E>): (o: Option<T>)
    ensures o.Some? <==> r.Ok?
    ensures o.Some? ==> o.value == r.value
  {
    match r
    case Ok(v) => Some(v)
    case Err(_) => None
  }

  /** `Option::ok_or` */
  function OkOr<T, E>(o: Option<T>, e: E): (r: Result<T, E>)
    ensures r.Ok? <==> o.Some?
    ensures r.Ok? ==> r.value == o.value
    ensures r.Err? ==> r.error == e
  {
    match o
    case Some(v) => Ok(v)
    case None => Err(e)
  }

  /** `Result::map` */
  function MapResult<T, U, E>(r: Result<T, E>, f: T -> U): (m: Result<U, E>)
    ensures m.Ok? <==> r.Ok?
    ensures r.Ok? ==> m.value == f(r.value)
    ensures r.Err? ==> m.error == r.error
  {
    match r
    case Ok(v) => Ok(f(v))
    case Err(e) => Err(e)
  }

  /** `Result::map_err` */
  function MapErr<T, E, F>(r: Result<T, E>, f: E -> F): (m: Result<T, F>)
    ensures m.Ok? <==> r.Ok?
    ensures r.Ok? ==> m.value == r.value
    ensures r.Err? ==> m.error == f(r.error)
  {
    match r
    case Ok(v) => Ok(v)
    case Err(e) => Err(f(e))
  }

  /** `Result::and_then` */
  function AndThenResult<T, U, E>(r: Result<T, E>, f: T -> Result<U, E>): (m: Result<U, E>)
    ensures r.Ok? ==> m == f(r.value)
    ensures r.Err? ==> m == Err(r.error)
  {
    match r
    case Ok(v) => f(v)
    case Err(e) => Err(e)
  }
}
