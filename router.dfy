/**
 * The configuration of a generated HTTP router, and the collection of its
 * routes' statements into the body of the generated ServeHTTP method.
 */
module Router {
  import opened Code

  /** The names the generated code uses. */
  datatype Config = Config(pkg: string, structName: string, receiver: string, writer: string, request: string)

  /** ASCII lower case. */
  function ToLower(c: char): (l: char)
    ensures 'A' <= c <= 'Z' ==> l as int == c as int + 32
    ensures !('A' <= c <= 'Z') ==> l == c
  {
    if 'A' <= c <= 'Z' then (c as int + 32) as char else c
  }

  /**
   * The configuration for a router struct: "Router" when no name is given;
   * the receiver is the name's first character in lower case, doubled to
   * "rr" when that would be the request's name "r".
   */
  function New(pkgName: string, structName: string): (c: Config)
    ensures c.pkg == pkgName && c.writer == "w" && c.request == "r"
    ensures c.structName == if structName == "" then "Router" else structName
    ensures c.receiver != c.request && c.receiver != ""
    ensures var first := [ToLower(c.structName[0])];
      c.receiver == if first == "r" then "rr" else first
  {
    var name := if structName == "" then "Router" else structName;
    var recv := [ToLower(name[0])];
    Config(pkgName, name, if recv == "r" then "rr" else recv, "w", "r")
  }

  /** The default struct name starts with "R", so its receiver is "rr". */
  lemma DefaultRouter(pkgName: string)
    ensures New(pkgName, "").structName == "Router" && New(pkgName, "").receiver == "rr"
  {
  }

  /** `New("example", "ex")` gives the receiver "e". */
  lemma ExampleRouter()
    ensures New("example", "ex") == Config("example", "ex", "e", "w", "r")
  {
  }

  /** The statements of the generated method: one per route, in route order. */
  method Generate<R>(c: Config, routes: seq<R>, route: (R, Config) -> Producer) returns (stmts: seq<Producer>)
    ensures |stmts| == |routes|
    ensures forall i | 0 <= i < |routes| :: stmts[i] == route(routes[i], c)
  {
    stmts := [];
    for i := 0 to |routes|
      invariant |stmts| == i
      invariant forall j | 0 <= j < i :: stmts[j] == route(routes[j], c)
    {
      stmts := stmts + [route(routes[i], c)];
    }
  }
}
