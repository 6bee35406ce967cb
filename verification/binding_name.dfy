/** The binding-name choice at the top of `_prepare(fn, type)`: a named
    function keeps its name; an anonymous one gets `'$'` and a random digit,
    lengthened by one random digit at a time while the candidate still
    occurs in the function's source text. Each random digit
    (`(Math.random() * 10) | 0`) is a nondeterministic choice; `fn.toString()`
    is the parameter `fnStr`.

    Deviation from the source: `name` is declared `const` and then
    reassigned, which throws; the method below performs the reassignment
    the code evidently intends (see ChooseNameAsWritten). */
module BindingName {
  import opened Wrappers

  /** `needle` occurs in `hay` starting at position `i`. */
  predicate OccursAt(hay: string, needle: string, i: int) {
    0 <= i && i + |needle| <= |hay| && hay[i .. i + |needle|] == needle
  }

  /** `needle` occurs somewhere in `hay`. */
  ghost predicate Occurs(hay: string, needle: string) {
    exists i :: OccursAt(hay, needle, i)
  }

  /** The first occurrence of `needle` in `hay` at or after `from`, or -1. */
  function IndexFrom(hay: string, needle: string, from: nat): (r: int)
    ensures r == -1 || from <= r
    ensures r == -1 <==> forall i :: from <= i ==> !OccursAt(hay, needle, i)
    ensures r != -1 ==> OccursAt(hay, needle, r) && forall i :: from <= i < r ==> !OccursAt(hay, needle, i)
    decreases |hay| - from
  {
    if from + |needle| > |hay| then -1
    else if hay[from .. from + |needle|] == needle then
      assert OccursAt(hay, needle, from);
      from
    else IndexFrom(hay, needle, from + 1)
  }

  /** `hay.indexOf(needle)`: the position of the first occurrence, or -1
      exactly when there is none. */
  function IndexOf(hay: string, needle: string): (r: int)
    ensures r == -1 <==> !Occurs(hay, needle)
    ensures r != -1 ==> OccursAt(hay, needle, r) && forall i :: 0 <= i < r ==> !OccursAt(hay, needle, i)
  {
    IndexFrom(hay, needle, 0)
  }

  predicate IsDigit(c: char) {
    '0' <= c <= '9'
  }

  /** The decimal digit character for `d`. */
  function DigitChar(d: int): (c: char)
    requires 0 <= d < 10
    ensures IsDigit(c)
  {
    (('0' as int) + d) as char
  }

  /** `'$'` followed by one or more decimal digits. */
  predicate IsGeneratedName(name: string) {
    |name| >= 2 && name[0] == '$' && forall i :: 1 <= i < |name| ==> IsDigit(name[i])
  }

  /** The name under which `_prepare` binds `fn`, with the reassignments the
      code intends. A non-empty `fn.name` is kept; otherwise the result is a
      generated name that does not occur in `fnStr`. The loop stops at the
      first candidate missing from `fnStr`: every shorter candidate it tried
      (each a prefix of the result) occurs there, so at most `|fnStr| - 1`
      extra digits are appended. */
  method ChooseName(fnName: string, fnStr: string) returns (name: string)
    ensures |fnName| > 0 ==> name == fnName
    ensures |fnName| == 0 ==> IsGeneratedName(name) && IndexOf(fnStr, name) == -1
    ensures |fnName| == 0 ==> forall j :: 2 <= j < |name| ==> Occurs(fnStr, name[..j])
    ensures |fnName| == 0 ==> |name| <= 2 || |name| <= |fnStr| + 1
  {
    name := fnName;
    if |name| == 0 {
      var d :| 0 <= d < 10;
      name := ['$', DigitChar(d)];
      while IndexOf(fnStr, name) != -1
        invariant IsGeneratedName(name)
        invariant forall j :: 2 <= j < |name| ==> Occurs(fnStr, name[..j])
        invariant |name| <= 2 || |name| <= |fnStr| + 1
        decreases |fnStr| + 1 - |name|
      {
        assert |name| <= |fnStr| && Occurs(fnStr, name) by {
          assert OccursAt(fnStr, name, IndexOf(fnStr, name));
        }
        var tried := name;
        var next :| 0 <= next < 10;
        name := name + [DigitChar(next)];
        assert name[..|tried|] == tried;
        forall j | 2 <= j < |name|
          ensures Occurs(fnStr, name[..j])
        {
          if j < |tried| {
            assert name[..j] == tried[..j];
          }
        }
      }
    }
  }

  /** `_prepare`'s name choice as written: for an anonymous function the
      first assignment to the `const` binding throws a TypeError. */
  function ChooseNameAsWritten(fnName: string, fnStr: string): (r: Result<string>)
    ensures |fnName| > 0 ==> r == Success(fnName)
  {
    if |fnName| > 0 then Success(fnName) else Failure(TypeError)
  }

  /** Every anonymous function makes the name choice as written throw,
      whereas ChooseName always yields a collision-free name for it. */
  lemma AnonymousFunctionThrows(fnStr: string)
    ensures ChooseNameAsWritten("", fnStr) == Failure(TypeError)
  {
  }
}
