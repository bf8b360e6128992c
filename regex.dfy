/** Go's `regexp` package as the core uses it. Its matching and
    replacement semantics are not modelled: an `Engine` carries them as
    opaque functions, and every statement about the core holds for every
    engine. */
module Regex {
  import opened Base

  /** A compiled *regexp.Regexp, identified by the expression it was
      compiled from. */
  datatype Regexp = Regexp(expr: string)

  datatype Engine = Engine(
    // regexp.Compile(expr) returns no error
    compiles: string -> bool,
    // (*Regexp).MatchString(s): some substring of s matches
    matchString: (Regexp, string) -> bool,
    // (*Regexp).ReplaceAll(src, repl), with $n expansion in repl
    replaceAll: (Regexp, seq<byte>, seq<byte>) -> seq<byte>)

  /** regexp.Compile. */
  function Compile(eng: Engine, expr: string): (r: Result<Regexp>)
    ensures r.Ok? <==> eng.compiles(expr)
    ensures r.Ok? ==> r.value == Regexp(expr)
    ensures r.Err? ==> r.error == BadPattern(expr)
  {
    if eng.compiles(expr) then Ok(Regexp(expr)) else Err(BadPattern(expr))
  }

  /** The error of a loop that compiles `exprs` in order and returns at
      the first failure. */
  function FirstInvalid(eng: Engine, exprs: seq<string>): (e: Option<Error>)
    ensures e == None <==> forall i :: 0 <= i < |exprs| ==> eng.compiles(exprs[i])
    ensures e.Some? ==>
      exists i :: (0 <= i < |exprs| && !eng.compiles(exprs[i]) && e.value == BadPattern(exprs[i])
                   && forall j :: 0 <= j < i ==> eng.compiles(exprs[j]))
  {
    if exprs == [] then None
    else if !eng.compiles(exprs[0]) then Some(BadPattern(exprs[0]))
    else
      var e := FirstInvalid(eng, exprs[1..]);
      assert e.Some? ==> exists i :: (1 <= i < |exprs| && !eng.compiles(exprs[i]) && e.value == BadPattern(exprs[i])
                                      && forall j :: 0 <= j < i ==> eng.compiles(exprs[j])) by {
        if e.Some? {
          var k :| 0 <= k < |exprs| - 1 && !eng.compiles(exprs[1..][k]) && e.value == BadPattern(exprs[1..][k])
            && forall j :: 0 <= j < k ==> eng.compiles(exprs[1..][j]);
          assert forall j :: 0 <= j < k + 1 ==> eng.compiles(exprs[j]) by {
            forall j | 0 <= j < k + 1 ensures eng.compiles(exprs[j]) {
              if j > 0 { assert exprs[j] == exprs[1..][j - 1]; }
            }
          }
        }
      }
      e
  }

  /** Compiling two lists in turn fails with the first list's error, if any,
      and otherwise with the second's. */
  lemma {:induction false} FirstInvalidAppend(eng: Engine, a: seq<string>, b: seq<string>)
    ensures FirstInvalid(eng, a + b) == if FirstInvalid(eng, a).Some? then FirstInvalid(eng, a) else FirstInvalid(eng, b)
  {
    if a != [] {
      assert (a + b)[0] == a[0] && (a + b)[1..] == a[1..] + b;
      FirstInvalidAppend(eng, a[1..], b);
    } else {
      assert a + b == b;
    }
  }

  /** The error is that of the first pattern that does not compile. */
  lemma FirstInvalidAt(eng: Engine, exprs: seq<string>, i: nat)
    requires i < |exprs| && !eng.compiles(exprs[i])
    requires forall j :: 0 <= j < i ==> eng.compiles(exprs[j])
    ensures FirstInvalid(eng, exprs) == Some(BadPattern(exprs[i]))
  {
    var e := FirstInvalid(eng, exprs);
    var k :| 0 <= k < |exprs| && !eng.compiles(exprs[k]) && e.value == BadPattern(exprs[k])
             && forall j :: 0 <= j < k ==> eng.compiles(exprs[j]);
  }
}
