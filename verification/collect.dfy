/** Parsing a sequence of items one after the other and stopping at the first
    item that fails: the loop shape both extractors share. */
module Collect {
  import opened Results

  /** Every item parses. */
  predicate AllOk<X, R, E>(xs: seq<X>, parse: X -> Result<R, E>) {
    forall i :: 0 <= i < |xs| ==> parse(xs[i]).Ok?
  }

  /** `k` is the first item that fails to parse. */
  predicate FirstError<X, R, E>(xs: seq<X>, parse: X -> Result<R, E>, k: int) {
    && 0 <= k < |xs|
    && parse(xs[k]).Err?
    && forall i :: 0 <= i < k ==> parse(xs[i]).Ok?
  }

  /** The parsed values of all items, in order, or the error of the first item
      that fails; nothing after that item is looked at. `ParseAllValues` and
      `ParseAllError` state what it returns. */
  function ParseAll<X, R(==), E(==)>(xs: seq<X>, parse: X -> Result<R, E>): (r: Result<seq<R>, E>)
    ensures r.Ok? ==> |r.value| == |xs|
    decreases |xs|
  {
    if xs == [] then Ok([])
    else
      match parse(xs[0])
      case Err(e) => Err(e)
      case Ok(v) =>
        match ParseAll(xs[1..], parse)
        case Err(e) => Err(e)
        case Ok(rest) => Ok([v] + rest)
  }

  /** The parse succeeds exactly when every item parses, and then holds the
      value of each item at its position. */
  lemma {:induction false} ParseAllValues<X, R, E>(xs: seq<X>, parse: X -> Result<R, E>)
    ensures ParseAll(xs, parse).Ok? <==> AllOk(xs, parse)
    ensures ParseAll(xs, parse).Ok? ==>
              forall i :: 0 <= i < |xs| ==> parse(xs[i]) == Ok(ParseAll(xs, parse).value[i])
    decreases |xs|
  {
    if xs != [] {
      ParseAllValues(xs[1..], parse);
      if parse(xs[0]).Ok? && !ParseAll(xs[1..], parse).Ok? {
        var k :| 0 <= k < |xs[1..]| && parse(xs[1..][k]).Err?;
        assert parse(xs[k + 1]).Err?;
      }
    }
  }

  /** A failed parse returns the error of the first item that fails. */
  lemma {:induction false} ParseAllError<X, R, E>(xs: seq<X>, parse: X -> Result<R, E>)
    requires ParseAll(xs, parse).Err?
    ensures exists k :: FirstError(xs, parse, k) && parse(xs[k]) == Err(ParseAll(xs, parse).error)
    decreases |xs|
  {
    match parse(xs[0])
    case Err(e) =>
      assert FirstError(xs, parse, 0);
    case Ok(v) =>
      ParseAllError(xs[1..], parse);
      var k :| FirstError(xs[1..], parse, k) && parse(xs[1..][k]) == Err(ParseAll(xs[1..], parse).error);
      assert FirstError(xs, parse, k + 1);
  }

  /** Running two parses one after the other: the first error wins, otherwise
      the values are concatenated. */
  function Chain<R, E>(x: Result<seq<R>, E>, y: Result<seq<R>, E>): Result<seq<R>, E> {
    match x
    case Err(_) => x
    case Ok(u) =>
      match y
      case Err(_) => y
      case Ok(v) => Ok(u + v)
  }

  /** Parsing a concatenation is parsing its halves in turn. */
  lemma {:induction false} ParseAllConcat<X, R, E>(a: seq<X>, b: seq<X>, parse: X -> Result<R, E>)
    ensures ParseAll(a + b, parse) == Chain(ParseAll(a, parse), ParseAll(b, parse))
    decreases |a|
  {
    if a == [] {
      assert a + b == b;
      match ParseAll(b, parse)
      case Err(_) =>
      case Ok(w) => assert [] + w == w;
    } else {
      assert (a + b)[0] == a[0];
      assert (a + b)[1..] == a[1..] + b;
      ParseAllConcat(a[1..], b, parse);
      match parse(a[0])
      case Err(_) =>
      case Ok(v) =>
        match ParseAll(a[1..], parse)
        case Err(_) =>
        case Ok(u) =>
          match ParseAll(b, parse)
          case Err(_) =>
          case Ok(w) =>
            assert [v] + (u + w) == ([v] + u) + w;
    }
  }

  /** A failure in the first part decides the whole parse. */
  lemma ParseAllStops<X, R, E>(a: seq<X>, b: seq<X>, parse: X -> Result<R, E>)
    requires ParseAll(a, parse).Err?
    ensures ParseAll(a + b, parse) == ParseAll(a, parse)
  {
    ParseAllConcat(a, b, parse);
  }

  /** One more item: its value is appended, or its error ends the parse. */
  lemma ParseAllSnoc<X, R, E>(xs: seq<X>, x: X, parse: X -> Result<R, E>)
    requires ParseAll(xs, parse).Ok?
    ensures parse(x).Ok? ==> ParseAll(xs + [x], parse) == Ok(ParseAll(xs, parse).value + [parse(x).value])
    ensures parse(x).Err? ==> ParseAll(xs + [x], parse) == Err(parse(x).error)
  {
    ParseAllConcat(xs, [x], parse);
    assert [x][0] == x && [x][1..] == [];
    match parse(x)
    case Err(_) =>
    case Ok(v) => assert [v] + [] == [v];
  }
}
