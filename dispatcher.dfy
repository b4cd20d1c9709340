/** The action dispatcher (`resolveActionBean`): an action id names its
    handler by convention, first letter upper-cased and `Action` appended. */
module Dispatcher {
  import opened Wrappers
  import opened Definition
  import opened Handlers

  const SUFFIX := "Action"

  /** `Character.toUpperCase` on the ASCII letters. */
  function UpperAscii(c: char): char {
    if 'a' <= c <= 'z' then (c as int - 32) as char else c
  }

  /** The simple class name the convention expects for an action id;
      `substring(0, 1)` throws on an empty id. */
  function ExpectedClassName(id: string): (r: Result<string, Error>)
    ensures r.Failure? <==> id == ""
    ensures r.Failure? ==> r.error == EmptyActionId
    ensures r.Success? ==> |r.value| == |id| + |SUFFIX| && r.value[|id|..] == SUFFIX
                           && r.value[0] == UpperAscii(id[0]) && r.value[1..|id|] == id[1..]
  {
    if id == "" then Failure(EmptyActionId)
    else Success([UpperAscii(id[0])] + id[1..] + SUFFIX)
  }

  /** Two non-empty ids name the same handler exactly when they agree after
      their first letter and their first letters agree once upper-cased. */
  lemma SameClassName(id1: string, id2: string)
    requires id1 != "" && id2 != ""
    ensures ExpectedClassName(id1) == ExpectedClassName(id2)
            <==> UpperAscii(id1[0]) == UpperAscii(id2[0]) && id1[1..] == id2[1..]
  {
    var r1, r2 := ExpectedClassName(id1), ExpectedClassName(id2);
    if r1 == r2 {
      assert |id1| == |id2|;
      assert id1[1..] == r1.value[1..|id1|];
    }
  }

  /** The position of the first handler whose simple class name is `name`. */
  function IndexOfClass(registry: seq<Handler>, name: string): (r: Option<nat>)
    ensures r.Some? ==> r.value < |registry| && SimpleName(registry[r.value]) == name
  {
    if registry == [] then None
    else if SimpleName(registry[0]) == name then Some(0)
    else
      match IndexOfClass(registry[1..], name)
      case None => None
      case Some(k) => Some(k + 1)
  }

  /** The position found is the first with that name, and there is none
      exactly when no handler has it. */
  lemma {:induction false} IndexOfClassFirst(registry: seq<Handler>, name: string)
    ensures var r := IndexOfClass(registry, name);
            && (r.None? <==> forall k :: 0 <= k < |registry| ==> SimpleName(registry[k]) != name)
            && (r.Some? ==> forall j :: 0 <= j < r.value ==> SimpleName(registry[j]) != name)
  {
    if registry != [] {
      IndexOfClassFirst(registry[1..], name);
      assert forall k :: 1 <= k < |registry| ==> registry[k] == registry[1..][k - 1];
    }
  }

  /** The handler an action id resolves to, or why there is none. */
  function Resolve(registry: seq<Handler>, id: string): Result<Handler, Error>
  {
    match ExpectedClassName(id)
    case Failure(e) => Failure(e)
    case Success(name) =>
      match IndexOfClass(registry, name)
      case None => Failure(NoHandler(id))
      case Some(k) => Success(registry[k])
  }

  /** Resolution finds the first registered handler named by the convention,
      and fails with `NoHandler` exactly when none is. */
  lemma ResolveFirstMatch(registry: seq<Handler>, id: string)
    requires id != ""
    ensures var name := ExpectedClassName(id).value;
            match Resolve(registry, id)
            case Success(h) =>
              exists k :: 0 <= k < |registry| && registry[k] == h && SimpleName(h) == name
                          && forall j :: 0 <= j < k ==> SimpleName(registry[j]) != name
            case Failure(e) =>
              e == NoHandler(id) && forall k :: 0 <= k < |registry| ==> SimpleName(registry[k]) != name
  {
    var name := ExpectedClassName(id).value;
    var idx := IndexOfClass(registry, name);
    IndexOfClassFirst(registry, name);
    if idx.Some? {
      assert registry[idx.value] == Resolve(registry, id).value;
    }
  }

  /** `resolveActionBean`: scans the registered handlers in order and returns
      the first whose simple class name is the expected one. */
  method ResolveActionBean(registry: seq<Handler>, id: string) returns (r: Result<Handler, Error>)
    ensures r == Resolve(registry, id)
  {
    if id == "" {
      return Failure(EmptyActionId);
    }
    var expected := [UpperAscii(id[0])] + id[1..] + SUFFIX;
    var i := 0;
    while i < |registry|
      invariant 0 <= i <= |registry|
      invariant forall j :: 0 <= j < i ==> SimpleName(registry[j]) != expected
    {
      if SimpleName(registry[i]) == expected {
        IndexOfClassFirst(registry, expected);
        return Success(registry[i]);
      }
      i := i + 1;
    }
    IndexOfClassFirst(registry, expected);
    return Failure(NoHandler(id));
  }

  /** `fillUserInfo` and `FillUserInfo` both resolve to `FillUserInfoAction`,
      `validateEmail` to `ValidateEmailAction`. */
  lemma RepositoryResolution()
    ensures Resolve(RepositoryHandlers, "fillUserInfo") == Success(FillUserInfo)
    ensures Resolve(RepositoryHandlers, "FillUserInfo") == Success(FillUserInfo)
    ensures Resolve(RepositoryHandlers, "validateEmail") == Success(ValidateEmail)
    ensures Resolve(RepositoryHandlers, "start") == Failure(NoHandler("start"))
  {
    var fill, validate, start := "FillUserInfoAction", "ValidateEmailAction", "StartAction";
    assert UpperAscii('f') == 'F' && UpperAscii('F') == 'F';
    assert UpperAscii('v') == 'V' && UpperAscii('s') == 'S';
    assert "fillUserInfo"[1..] == "FillUserInfo"[1..] == "illUserInfo";
    assert "validateEmail"[1..] == "alidateEmail";
    assert "start"[1..] == "tart";
    assert fill == "F" + "illUserInfo" + SUFFIX;
    assert validate == "V" + "alidateEmail" + SUFFIX;
    assert start == "S" + "tart" + SUFFIX;
    assert ExpectedClassName("fillUserInfo") == Success(fill);
    assert ExpectedClassName("FillUserInfo") == Success(fill);
    assert ExpectedClassName("validateEmail") == Success(validate);
    assert ExpectedClassName("start") == Success(start);
    assert validate != fill by { assert validate[0] != fill[0]; }
    assert validate != start && fill != start by { assert validate[0] != start[0] && fill[0] != start[0]; }
    assert IndexOfClass(RepositoryHandlers, fill) == Some(1);
    assert IndexOfClass(RepositoryHandlers, validate) == Some(0);
    assert IndexOfClass(RepositoryHandlers, start) == None;
  }
}
