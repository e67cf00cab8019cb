/**
 * Helpers of src/lib/meshUtil.ts: the defined-check, the undefined branch of getPath,
 * the generic failure status and the sequential promise loop `asyncLoop`.
 */
module MeshUtil {
  import opened Common

  /** A JavaScript value that may also be `undefined` or `null`. */
  datatype Js<T> = Undefined | Null | Defined(value: T)

  /** The status used for generic failures. */
  const STATUS_ERROR: int := 500

  /** isDefined: false exactly when the value is undefined or null. */
  function IsDefined<T>(x: Js<T>): (r: bool)
    ensures r <==> !(x.Undefined? || x.Null?)
    ensures r ==> x == Defined(x.value)
  {
    x.Defined?
  }

  /**
   * getPath: an undefined or null URL comes back unchanged; otherwise the result is the pathname
   * that the URL parser reports (`pathname` stands for URL.parse(url).pathname, which may be null).
   */
  function GetPath(url: Js<string>, pathname: string -> Js<string>): (r: Js<string>)
    ensures !IsDefined(url) ==> r == url
    ensures IsDefined(url) ==> r == pathname(url.value)
  {
    if IsDefined(url) then pathname(url.value) else url
  }

  /** Array.prototype.indexOf and String.prototype.indexOf for one character: the first index holding x, or -1 when there is none. */
  function IndexOf<T(==)>(s: seq<T>, x: T): (i: int)
    ensures -1 <= i < |s|
    ensures i == -1 <==> x !in s
    ensures 0 <= i ==> s[i] == x && x !in s[..i]
  {
    if s == [] then -1
    else if s[0] == x then 0
    else
      var j := IndexOf(s[1..], x);
      assert s[1..][..j + 1] == s[1..j + 2] by { assert j >= -1; }
      if j == -1 then -1 else j + 1
  }

  /** String.prototype.lastIndexOf for one character: the last index holding x, or -1. */
  function LastIndexOf<T(==)>(s: seq<T>, x: T): (i: int)
    ensures -1 <= i < |s|
    ensures i == -1 <==> x !in s
    ensures 0 <= i ==> s[i] == x && x !in s[i + 1..]
  {
    if s == [] then -1
    else if s[|s| - 1] == x then |s| - 1
    else
      var j := LastIndexOf(s[..|s| - 1], x);
      assert j >= 0 ==> s[j + 1..] == s[..|s| - 1][j + 1..] + [s[|s| - 1]];
      j
  }

  /** An index holding x with no x before it is what indexOf returns. */
  lemma {:induction false} IndexOfAt<T>(s: seq<T>, x: T, k: nat)
    requires k < |s| && s[k] == x && x !in s[..k]
    ensures IndexOf(s, x) == k
  {
    if k > 0 {
      assert s[0] == s[..k][0];
      var before, inner := s[..k], s[1..][..k - 1];
      assert forall j :: 0 <= j < |inner| ==> inner[j] == before[j + 1];
      IndexOfAt(s[1..], x, k - 1);
    }
  }

  /** An index holding x with no x after it is what lastIndexOf returns. */
  lemma {:induction false} LastIndexOfAt<T>(s: seq<T>, x: T, k: nat)
    requires k < |s| && s[k] == x && x !in s[k + 1..]
    ensures LastIndexOf(s, x) == k
    decreases |s|
  {
    if k < |s| - 1 {
      assert s[|s| - 1] == s[k + 1..][|s| - 2 - k];
      var init := s[..|s| - 1];
      var after, inner := s[k + 1..], init[k + 1..];
      assert forall j :: 0 <= j < |inner| ==> inner[j] == after[j];
      LastIndexOfAt(init, x, k);
    }
  }

  /** `s.indexOf(t) > -1`: t occurs in s as a contiguous substring. */
  predicate Contains<T(==)>(s: seq<T>, t: seq<T>)
    decreases |s|
  {
    if |s| < |t| then false else s[..|t|] == t || Contains(s[1..], t)
  }

  /** A substring of s is a substring of every extension p + s. */
  lemma {:induction false} ContainsPrepend<T>(p: seq<T>, s: seq<T>, t: seq<T>)
    requires Contains(s, t)
    ensures Contains(p + s, t)
    decreases |p|
  {
    if p == [] {
      assert p + s == s;
    } else {
      ContainsPrepend(p[1..], s, t);
      assert (p + s)[1..] == p[1..] + s;
      assert |s| >= |t|;
    }
  }

  /** A sequence contains each of its prefixes. */
  lemma ContainsPrefix<T>(s: seq<T>, t: seq<T>)
    requires t <= s
    ensures Contains(s, t)
  {
    assert s[..|t|] == t;
  }

  /** The index of the first item whose step fails, or |items| when every step fulfils. */
  function FirstFailure<H, E>(items: seq<H>, body: H -> Outcome<E>): (k: nat)
    ensures k <= |items|
    ensures forall i :: 0 <= i < k ==> body(items[i]).Ok?
    ensures k < |items| ==> body(items[k]).Fail?
  {
    if items == [] then 0
    else if body(items[0]).Fail? then 0
    else 1 + FirstFailure(items[1..], body)
  }

  /**
   * The outcome of running the steps strictly left to right, each one only after the previous
   * one fulfilled, and stopping at the first rejection.
   */
  function RunChain<H, E>(items: seq<H>, body: H -> Outcome<E>): (r: Outcome<E>)
    ensures r.Ok? <==> forall i :: 0 <= i < |items| ==> body(items[i]).Ok?
    ensures r.Fail? ==> FirstFailure(items, body) < |items| && r == body(items[FirstFailure(items, body)])
  {
    var k := FirstFailure(items, body);
    if k < |items| then body(items[k]) else Ok
  }

  /** Running a chain is a left-to-right reduction: the second part runs only if the first fulfils. */
  lemma {:induction false} RunChainAppend<H, E>(a: seq<H>, b: seq<H>, body: H -> Outcome<E>)
    ensures RunChain(a + b, body) == if RunChain(a, body).Ok? then RunChain(b, body) else RunChain(a, body)
  {
    FirstFailureAppend(a, b, body);
    if FirstFailure(a, body) == |a| {
      var k := FirstFailure(b, body);
      if k < |b| {
        assert (a + b)[|a| + k] == b[k];
      }
    } else {
      assert (a + b)[FirstFailure(a, body)] == a[FirstFailure(a, body)];
    }
  }

  lemma {:induction false} FirstFailureAppend<H, E>(a: seq<H>, b: seq<H>, body: H -> Outcome<E>)
    ensures FirstFailure(a + b, body) ==
      if FirstFailure(a, body) < |a| then FirstFailure(a, body) else |a| + FirstFailure(b, body)
  {
    if a != [] {
      assert (a + b)[0] == a[0];
      if body(a[0]).Ok? {
        assert (a + b)[1..] == a[1..] + b;
        FirstFailureAppend(a[1..], b, body);
      }
    } else {
      assert a + b == b;
    }
  }

  /** Steps that behave alike on every item give the same chain. */
  lemma {:induction false} RunChainCongruent<H, E>(items: seq<H>, f: H -> Outcome<E>, g: H -> Outcome<E>)
    requires forall i :: 0 <= i < |items| ==> f(items[i]) == g(items[i])
    ensures FirstFailure(items, f) == FirstFailure(items, g)
    ensures RunChain(items, f) == RunChain(items, g)
  {
    if items != [] {
      assert forall i :: 0 <= i < |items| - 1 ==> items[1..][i] == items[i + 1];
      RunChainCongruent(items[1..], f, g);
    }
  }

  /**
   * asyncLoop: calls the body on items[0], items[1], ... in increasing index order, each call only
   * after the previous one fulfilled; rejects with the first rejection reason and never calls the
   * body on a later index; resolves once every index below |items| has fulfilled. `calls` records
   * the indices the body was called on, in call order.
   */
  method AsyncLoop<H, E>(items: seq<H>, body: H -> Outcome<E>) returns (r: Outcome<E>, calls: seq<nat>)
    ensures r == RunChain(items, body)
    ensures forall j :: 0 <= j < |calls| ==> calls[j] == j
    ensures |calls| == if r.Ok? then |items| else FirstFailure(items, body) + 1
    ensures forall j :: 0 <= j < |calls| - 1 ==> body(items[calls[j]]).Ok?
    ensures items == [] ==> r == Ok && calls == []
  {
    var i := 0;
    calls := [];
    while i < |items|
      invariant i <= FirstFailure(items, body)
      invariant |calls| == i
      invariant forall j :: 0 <= j < i ==> calls[j] == j
    {
      calls := calls + [i];
      var o := body(items[i]);
      if o.Fail? {
        return o, calls;
      }
      i := i + 1;
    }
    return Ok, calls;
  }
}
