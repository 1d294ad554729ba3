/** Classification of store errors (internal/repository/psql/errors.go):
    PostgreSQL's internal-error code, which PostGIS uses for geometry it
    rejects, becomes a validation error the caller can fix; every other
    error passes through. */
module PsqlErrors {
  import opened Wrappers

  const InternalPostgresErrorCode := "XX000"

  /** An error value with the structure `errors.As` walks. */
  datatype Error =
    | PgError(code: string, message: string)  // *pgconn.PgError
    | PostgisValidationErr(message: string)
    | Wrapped(context: string, inner: Error)  // an error with `Unwrap() error`, e.g. fmt.Errorf with %w
    | Joined(errs: seq<Error>)                // an error with `Unwrap() []error`, e.g. errors.Join
    | Other(text: string)                     // any other error; it wraps nothing

  /** `PostgisValidationErr.Error()`: the store's message and nothing else. */
  function ValidationErrText(e: Error): string
    requires e.PostgisValidationErr?
  {
    e.message
  }

  /** Some `PgError` occurs in the error's tree. */
  predicate HasPgError(e: Error) {
    match e
    case PgError(_, _) => true
    case Wrapped(_, inner) => HasPgError(inner)
    case Joined(es) => exists i :: 0 <= i < |es| && HasPgError(es[i])
    case _ => false
  }

  /** `x` occurs in the error's tree. */
  predicate Occurs(x: Error, e: Error) {
    x == e ||
    match e
    case Wrapped(_, inner) => Occurs(x, inner)
    case Joined(es) => exists i :: 0 <= i < |es| && Occurs(x, es[i])
    case _ => false
  }

  /** `errors.As(err, &e)` with `e *pgconn.PgError`: a pre-order, left-to-right
      search of the tree for the first `PgError`. */
  function FindPgError(e: Error): (r: Option<Error>)
    ensures r.Some? <==> HasPgError(e)
    ensures r.Some? ==> r.value.PgError? && Occurs(r.value, e)
    decreases e
  {
    match e
    case PgError(_, _) => Some(e)
    case Wrapped(_, inner) => FindPgError(inner)
    case Joined(es) => FindPgErrorIn(es)
    case _ => None
  }

  function FindPgErrorIn(es: seq<Error>): (r: Option<Error>)
    ensures r.Some? <==> exists i :: 0 <= i < |es| && HasPgError(es[i])
    ensures r.Some? ==> r.value.PgError? && exists i :: 0 <= i < |es| && Occurs(r.value, es[i])
    decreases es
  {
    if es == [] then None
    else
      match FindPgError(es[0])
      case Some(pg) => Some(pg)
      case None =>
        var r := FindPgErrorIn(es[1..]);
        assert forall i :: 1 <= i < |es| ==> es[i] == es[1..][i - 1];
        r
  }

  /** `parsePostgisError`. */
  function ParsePostgisError(err: Error): (r: Error)
    ensures !HasPgError(err) ==> r == err
    ensures HasPgError(err) && FindPgError(err).value.code != InternalPostgresErrorCode ==> r == err
    ensures HasPgError(err) && FindPgError(err).value.code == InternalPostgresErrorCode ==>
              r == PostgisValidationErr(FindPgError(err).value.message)
  {
    match FindPgError(err)
    case None => err
    case Some(pg) =>
      if pg.code != InternalPostgresErrorCode then err
      else PostgisValidationErr(pg.message)
  }

  /** What the client is shown for a rejected geometry: when the first
      `PgError` of the tree carries the internal-error code, the
      classified error's text is exactly that `PgError`'s message. */
  lemma ValidationTextIsStoreMessage(err: Error)
    requires HasPgError(err) && FindPgError(err).value.code == InternalPostgresErrorCode
    ensures ParsePostgisError(err).PostgisValidationErr?
    ensures ValidationErrText(ParsePostgisError(err)) == FindPgError(err).value.message
  {
  }

  /** The result of classification is never classified again differently. */
  lemma ParseIdempotent(err: Error)
    ensures ParsePostgisError(ParsePostgisError(err)) == ParsePostgisError(err)
  {
  }

  /** Wrapping `n` times with context strings. */
  function WrapN(contexts: seq<string>, e: Error): Error
    decreases |contexts|
  {
    if contexts == [] then e else Wrapped(contexts[0], WrapN(contexts[1..], e))
  }

  /** An internal-error `PgError` is found at any depth of wrapping, and its
      message is forwarded unchanged. */
  lemma {:induction false} FoundThroughWrapping(contexts: seq<string>, message: string)
    ensures ParsePostgisError(WrapN(contexts, PgError(InternalPostgresErrorCode, message)))
            == PostgisValidationErr(message)
    decreases |contexts|
  {
    if contexts != [] {
      FoundThroughWrapping(contexts[1..], message);
    }
  }

  /** Any other code is passed through however deep it sits. */
  lemma {:induction false} OtherCodesPassThrough(contexts: seq<string>, code: string, message: string)
    requires code != InternalPostgresErrorCode
    ensures var e := WrapN(contexts, PgError(code, message)); ParsePostgisError(e) == e
    decreases |contexts|
  {
    if contexts != [] {
      OtherCodesPassThrough(contexts[1..], code, message);
    }
  }

  /** In a joined error the first `PgError` in order decides, even if a later
      one carries the internal-error code. */
  lemma FirstPgErrorDecides(es: seq<Error>, code: string, message: string, later: seq<Error>)
    requires forall i :: 0 <= i < |es| ==> !HasPgError(es[i])
    requires code != InternalPostgresErrorCode
    ensures var e := Joined(es + [PgError(code, message)] + later); ParsePostgisError(e) == e
  {
    var all := es + [PgError(code, message)] + later;
    PrefixWithoutPgError(es, all, PgError(code, message));
  }

  lemma {:induction false} PrefixWithoutPgError(es: seq<Error>, all: seq<Error>, pg: Error)
    requires pg.PgError?
    requires |all| > |es| && all[..|es|] == es && all[|es|] == pg
    requires forall i :: 0 <= i < |es| ==> !HasPgError(es[i])
    ensures FindPgErrorIn(all) == Some(pg)
    decreases |es|
  {
    if es != [] {
      assert all[1..][..|es| - 1] == es[1..];
      assert !HasPgError(all[0]);
      PrefixWithoutPgError(es[1..], all[1..], pg);
    }
  }

  // ---------------------------------------------------------------------
  // The search order in general: `FindPgError` returns the first `PgError`
  // of the tree's pre-order listing (a node before what it wraps, joined
  // errors left to right).

  function Flatten(e: Error): seq<Error>
    decreases e
  {
    match e
    case Wrapped(_, inner) => [e] + Flatten(inner)
    case Joined(es) => [e] + FlattenAll(es)
    case _ => [e]
  }

  function FlattenAll(es: seq<Error>): seq<Error>
    decreases es
  {
    if es == [] then [] else Flatten(es[0]) + FlattenAll(es[1..])
  }

  /** The first `PgError` of a listing. */
  function FirstPg(s: seq<Error>): Option<Error>
    decreases |s|
  {
    if s == [] then None
    else if s[0].PgError? then Some(s[0])
    else FirstPg(s[1..])
  }

  lemma {:induction false} FirstPgConcat(a: seq<Error>, b: seq<Error>)
    ensures FirstPg(a + b) == if FirstPg(a).Some? then FirstPg(a) else FirstPg(b)
    decreases |a|
  {
    if a != [] {
      assert (a + b)[1..] == a[1..] + b;
      FirstPgConcat(a[1..], b);
    } else {
      assert a + b == b;
    }
  }

  /** `FindPgError` is the first `PgError` in pre-order, at any nesting of
      wrapped and joined errors. */
  lemma {:induction false} FindPgErrorIsFirstInPreOrder(e: Error)
    ensures FindPgError(e) == FirstPg(Flatten(e))
    decreases e
  {
    match e
    case Wrapped(_, inner) =>
      FindPgErrorIsFirstInPreOrder(inner);
      assert ([e] + Flatten(inner))[1..] == Flatten(inner);
    case Joined(es) =>
      FindPgErrorInIsFirstInPreOrder(es);
      assert ([e] + FlattenAll(es))[1..] == FlattenAll(es);
    case _ =>
  }

  lemma {:induction false} FindPgErrorInIsFirstInPreOrder(es: seq<Error>)
    ensures FindPgErrorIn(es) == FirstPg(FlattenAll(es))
    decreases es
  {
    if es != [] {
      FindPgErrorIsFirstInPreOrder(es[0]);
      FindPgErrorInIsFirstInPreOrder(es[1..]);
      FirstPgConcat(Flatten(es[0]), FlattenAll(es[1..]));
    }
  }
}
