/** The `Method` enumeration: the nine request methods, each a string-valued
    member whose value is its own name. */
module Methods {
  import opened Wrappers

  datatype Method = GET | POST | PUT | DELETE | CONNECT | TRACE | PATCH | OPTIONS | HEAD

  /** The member's string value (`Method.GET.value == 'GET'`, and so on). */
  function Value(m: Method): (r: string)
    ensures |r| > 0 && forall i :: 0 <= i < |r| ==> 'A' <= r[i] <= 'Z'
  {
    match m
    case GET => "GET"
    case POST => "POST"
    case PUT => "PUT"
    case DELETE => "DELETE"
    case CONNECT => "CONNECT"
    case TRACE => "TRACE"
    case PATCH => "PATCH"
    case OPTIONS => "OPTIONS"
    case HEAD => "HEAD"
  }

  /** The members in declaration order. */
  const Members: seq<Method> := [GET, POST, PUT, DELETE, CONNECT, TRACE, PATCH, OPTIONS, HEAD]

  /** The values of the members. */
  const Values: set<string> := {"GET", "POST", "PUT", "DELETE", "CONNECT", "TRACE", "PATCH", "OPTIONS", "HEAD"}

  /** `Method(s)`: lookup by value; `None` where Python raises `ValueError`.
      It succeeds exactly on the nine values, and then returns the member
      with that value. */
  function FromValue(s: string): (r: Option<Method>)
    ensures r.Some? <==> s in Values
    ensures r.Some? ==> Value(r.value) == s
  {
    if s == "GET" then Some(GET)
    else if s == "POST" then Some(POST)
    else if s == "PUT" then Some(PUT)
    else if s == "DELETE" then Some(DELETE)
    else if s == "CONNECT" then Some(CONNECT)
    else if s == "TRACE" then Some(TRACE)
    else if s == "PATCH" then Some(PATCH)
    else if s == "OPTIONS" then Some(OPTIONS)
    else if s == "HEAD" then Some(HEAD)
    else None
  }

  /** There are exactly nine members, each listed once, and their values are
      exactly the accepted strings. */
  lemma NineMembers()
    ensures |Members| == 9
    ensures forall m :: m in Members
    ensures forall i, j :: 0 <= i < j < |Members| ==> Members[i] != Members[j]
    ensures forall s :: s in Values <==> exists m :: Value(m) == s
  {
    forall m ensures m in Members {
      match m
      case GET => assert Members[0] == m;
      case POST => assert Members[1] == m;
      case PUT => assert Members[2] == m;
      case DELETE => assert Members[3] == m;
      case CONNECT => assert Members[4] == m;
      case TRACE => assert Members[5] == m;
      case PATCH => assert Members[6] == m;
      case OPTIONS => assert Members[7] == m;
      case HEAD => assert Members[8] == m;
    }
    forall s | s in Values ensures exists m :: Value(m) == s {
      var m := FromValue(s).value;
      assert Value(m) == s;
    }
  }

  /** Distinct members have distinct values, so lookup by value is injective
      and inverts `Value`. */
  lemma ValueInjective(m1: Method, m2: Method)
    ensures Value(m1) == Value(m2) ==> m1 == m2
    ensures FromValue(Value(m1)) == Some(m1)
  {
  }
}
