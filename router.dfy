/** router.go: the table of HTTP methods every router indexes its per-method
    stores by, and the character class allowed in route parameter names. */
module Router {

  const GET: nat := 0
  const POST: nat := 1
  const PUT: nat := 2
  const DELETE: nat := 3
  const PATCH: nat := 4
  const OPTIONS: nat := 5
  const HEAD: nat := 6

  /** The length of every per-method route table. */
  const RouteLength: nat := 7

  /** The method keys a router accepts, with their table slots. */
  const RouterMethods: map<string, nat> := map[
    "GET" := GET,
    "POST" := POST,
    "PUT" := PUT,
    "DELETE" := DELETE,
    "PATCH" := PATCH,
    "OPTIONS" := OPTIONS,
    "HEAD" := HEAD
  ]

  /** The seven method names, in slot order. */
  const MethodNames: seq<string> := ["GET", "POST", "PUT", "DELETE", "PATCH", "OPTIONS", "HEAD"]

  /** `RouterMethods[method]` as Go evaluates it: a key that is absent yields
      the zero value, which is the slot of GET. */
  function MethodIndex(name: string): (i: nat)
    ensures i < RouteLength
    ensures name in RouterMethods ==> MethodNames[i] == name
    ensures name !in RouterMethods ==> i == GET
  {
    if name in RouterMethods then RouterMethods[name] else 0
  }

  /** `IsParamChar`: letters, digits and the underscore; none of the bytes
      that delimit a parameter in a pattern is one. */
  predicate IsParamChar(c: char)
    ensures IsParamChar(c) ==>
              c != ':' && c != '*' && c != '/' && c != '(' && c != ')' && c != '%' && c != '.' && c != '-'
  {
    ('A' <= c <= 'Z') || ('a' <= c <= 'z') || ('0' <= c <= '9') || c == '_'
  }

  /** The table has exactly the seven methods, each at its own slot, the
      slots are 0..6, and a method outside the table (such as TRACE) is not a
      key, so every router's `add` rejects it. */
  lemma RouterMethodsTable()
    ensures RouterMethods.Keys == {"GET", "POST", "PUT", "DELETE", "PATCH", "OPTIONS", "HEAD"}
    ensures |RouterMethods| == RouteLength
    ensures forall m :: m in RouterMethods ==> RouterMethods[m] < RouteLength && MethodNames[RouterMethods[m]] == m
    ensures forall m1, m2 :: m1 in RouterMethods && m2 in RouterMethods && m1 != m2 ==> RouterMethods[m1] != RouterMethods[m2]
    ensures "TRACE" !in RouterMethods
  {
    NamesDiffer();
    assert RouterMethods.Keys == {"GET", "POST", "PUT", "DELETE", "PATCH", "OPTIONS", "HEAD"};
    assert |RouterMethods.Keys| == 7;
    forall m | m in RouterMethods
      ensures RouterMethods[m] < RouteLength && MethodNames[RouterMethods[m]] == m
    {
    }
  }

  /** The method names differ pairwise, and from TRACE: by their length or
      by their first byte. */
  lemma NamesDiffer()
    ensures forall i, j :: 0 <= i < j < |MethodNames| ==> MethodNames[i] != MethodNames[j]
    ensures "TRACE" !in MethodNames
  {
    var lens := [3, 4, 3, 6, 5, 7, 4];
    var firsts := ['G', 'P', 'P', 'D', 'P', 'O', 'H'];
    forall i | 0 <= i < 7
      ensures |MethodNames[i]| == lens[i] && MethodNames[i][0] == firsts[i]
    {
    }
    assert |"TRACE"| == 5 && "TRACE"[0] == 'T';
  }
}
