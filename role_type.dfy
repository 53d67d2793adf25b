/** The RoleType enumeration: its constants in declaration order, their titles and names,
    and the linear search findByTitle. */
module RoleTypes {
  import opened Wrappers

  datatype RoleType = RoleUser | RoleAdmin

  /** RoleType.values(): the constants in declaration order. */
  const Values: seq<RoleType> := [RoleUser, RoleAdmin]

  /** getTitle(): the title each constant is declared with. */
  function Title(rt: RoleType): (t: string)
    ensures t == "user" <==> rt == RoleUser
    ensures t == "admin" <==> rt == RoleAdmin
  {
    match rt
    case RoleUser => "user"
    case RoleAdmin => "admin"
  }

  /** name(): the identifier of the constant, which is also the authority granted for it. */
  function Name(rt: RoleType): (n: string)
    ensures n == "ROLE_USER" <==> rt == RoleUser
    ensures n == "ROLE_ADMIN" <==> rt == RoleAdmin
  {
    match rt
    case RoleUser => "ROLE_USER"
    case RoleAdmin => "ROLE_ADMIN"
  }

  /** The first element of `vals` whose title is exactly `title`, if any. */
  function FirstWithTitle(vals: seq<RoleType>, title: string): (r: Option<RoleType>)
    ensures r.Some? ==> r.value in vals && Title(r.value) == title
    ensures r.None? <==> forall i :: 0 <= i < |vals| ==> Title(vals[i]) != title
    ensures forall i :: (0 <= i < |vals| && Title(vals[i]) == title &&
                          forall j :: 0 <= j < i ==> Title(vals[j]) != title) ==> r == Some(vals[i])
  {
    if |vals| == 0 then None
    else if Title(vals[0]) == title then Some(vals[0])
    else
      var r := FirstWithTitle(vals[1..], title);
      assert forall i :: 1 <= i < |vals| ==> vals[i] == vals[1..][i - 1];
      r
  }

  /** findByTitle: scans values() in order and stops at the first constant whose title
      equals the argument; null when none does. */
  method FindByTitle(title: string) returns (rt: Option<RoleType>)
    ensures rt == FirstWithTitle(Values, title)
  {
    rt := None;
    var vals := Values;
    for i := 0 to |vals|
      invariant rt == None
      invariant FirstWithTitle(vals, title) == FirstWithTitle(vals[i..], title)
    {
      assert vals[i..][1..] == vals[i + 1..];
      if Title(vals[i]) == title {
        rt := Some(vals[i]);
        break;
      }
    }
  }

  /** values() lists every constant, each once. */
  lemma ValuesComplete(rt: RoleType)
    ensures rt in Values
    ensures forall i, j :: 0 <= i < j < |Values| ==> Values[i] != Values[j]
  {
  }

  /** No two constants share a title, so a title identifies its constant. */
  lemma TitleInjective(a: RoleType, b: RoleType)
    ensures Title(a) == Title(b) ==> a == b
  {
  }

  /** No two constants share a name, so an authority identifies its role type. */
  lemma NameInjective(a: RoleType, b: RoleType)
    ensures Name(a) == Name(b) ==> a == b
  {
  }

  /** Round trip: looking up a constant's own title finds that constant. */
  lemma FindByTitleRoundTrip(rt: RoleType)
    ensures FirstWithTitle(Values, Title(rt)) == Some(rt)
  {
    var r := FirstWithTitle(Values, Title(rt));
    assert Title(Values[if rt == RoleUser then 0 else 1]) == Title(rt);
    TitleInjective(r.value, rt);
  }

  /** The two declared titles are found; every other string, including a different
      capitalisation of a title, finds nothing. */
  lemma FindByTitleExactly(title: string)
    ensures FirstWithTitle(Values, title) == Some(RoleUser) <==> title == "user"
    ensures FirstWithTitle(Values, title) == Some(RoleAdmin) <==> title == "admin"
    ensures FirstWithTitle(Values, title) == None <==> title != "user" && title != "admin"
  {
  }
}
