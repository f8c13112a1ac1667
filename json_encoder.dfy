/** `ObjectJSONEncoder.default` of `bvggrabber/utils/json.py`: an object is
    encoded as the dictionary of its data members, without routines, without
    names that start with "__", and without `when` and `now`. An object is
    its members, name to member, as `inspect.getmembers` lists them. */
module JsonEncoder {
  import opened Text

  /** A member as `inspect.isroutine` sees it: a routine (a function or a
      method) or a data attribute holding a value. */
  datatype Member<V> = Routine | Attribute(value: V)

  /** `is_not_method`: true for every member that is not a routine. */
  predicate IsNotMethod<V>(m: Member<V>) {
    !m.Routine?
  }

  /** The names `default` keeps among the data members. */
  predicate Kept(name: string) {
    !StartsWith(name, "__") && name != "when" && name != "now"
  }

  /** The dictionary `default` returns for an object with these members. */
  function Default<V>(members: map<string, Member<V>>): (r: map<string, V>)
    ensures forall name :: name in r <==> name in members && IsNotMethod(members[name]) && Kept(name)
    ensures forall name :: name in r ==> members[name] == Attribute(r[name])
  {
    map name | name in members && IsNotMethod(members[name]) && Kept(name) :: members[name].value
  }

  /** Neither `when` nor `now` is ever encoded, nor any routine, nor any name
      starting with "__". */
  lemma DroppedMembers<V>(members: map<string, Member<V>>)
    ensures "when" !in Default(members) && "now" !in Default(members)
    ensures forall name :: name in members && members[name].Routine? ==> name !in Default(members)
    ensures forall name :: name in Default(members) ==> !StartsWith(name, "__")
  {
  }

  /** Every data member with a kept name is encoded with its value. */
  lemma KeptMembers<V>(members: map<string, Member<V>>, name: string, v: V)
    requires name in members && members[name] == Attribute(v) && Kept(name)
    ensures name in Default(members) && Default(members)[name] == v
  {
  }

  /** The members of an object whose attributes are the entries of `d`. */
  function AsMembers<V>(d: map<string, V>): (members: map<string, Member<V>>)
    ensures members.Keys == d.Keys
    ensures forall name :: name in d ==> members[name] == Attribute(d[name])
  {
    map name | name in d :: Attribute(d[name])
  }

  /** Encoding an encoded dictionary's entries again changes nothing. */
  lemma DefaultIsIdempotent<V>(members: map<string, Member<V>>)
    ensures Default(AsMembers(Default(members))) == Default(members)
  {
    var once := Default(members);
    var twice := Default(AsMembers(once));
    assert twice.Keys == once.Keys;
  }

  /** Adding a routine, or a member that is not kept, changes nothing. */
  lemma IgnoredMemberChangesNothing<V>(members: map<string, Member<V>>, name: string, m: Member<V>)
    requires name !in members && (m.Routine? || !Kept(name))
    ensures Default(members[name := m]) == Default(members)
  {
    var a, b := Default(members[name := m]), Default(members);
    assert a.Keys == b.Keys;
  }

  /** A departure's members as Python lists them for `Departure` of
      `bvggrabber/api/__init__.py`: its four attributes, its methods and
      the dunder attributes every class has. */
  const DepartureMembers: map<string, Member<string>> := map[
    "start" := Attribute("From My Station"), "end" := Attribute("To Your Station"),
    "when" := Attribute("2013-01-02 03:04:45"), "line" := Attribute("A Line"),
    "remaining" := Routine, "to_json" := Routine, "__str__" := Routine,
    "__module__" := Attribute("bvggrabber.api")]

  /** A departure is encoded as its start, end and line only. */
  lemma DepartureEncoding()
    ensures Default(DepartureMembers)
         == map["start" := "From My Station", "end" := "To Your Station", "line" := "A Line"]
  {
    DepartureKeys();
  }

  lemma DepartureKeys()
    ensures Default(DepartureMembers).Keys == {"start", "end", "line"}
  {
    Dunder("__module__");
    NotDunder("start");
    NotDunder("end");
    NotDunder("line");
  }

  lemma Dunder(name: string)
    requires |name| >= 2 && name[0] == '_' && name[1] == '_'
    ensures StartsWith(name, "__")
  {
    assert name[..2] == "__";
  }

  lemma NotDunder(name: string)
    requires |name| >= 1 && name[0] != '_'
    ensures !StartsWith(name, "__")
  {
    if |name| >= 2 {
      assert name[..2][0] != "__"[0];
    }
  }
}
