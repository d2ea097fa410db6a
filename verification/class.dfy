/** Classes and instances (src/class.rs).

    A class holds its superclass by value, so the inheritance chain is finite
    and acyclic by construction and method lookup terminates. Method values
    are opaque `LoxFunction` handles; binding a method to an instance is a
    parameter `bind`, since `LoxFunction::bind` is not part of this revision of rlox. */
module Classes {
  import opened Common
  import opened Values

  datatype Class = Class(name: string, superClass: Option<Class>, methods: map<string, LoxFunction>)

  datatype Instance = Instance(cls: Class, fields: map<string, Value>)

  /** The class followed by its superclasses, nearest first. */
  function Ancestry(c: Class): (r: seq<Class>)
    ensures |r| > 0 && r[0] == c
    decreases c
  {
    match c.superClass
    case None => [c]
    case Some(s) => [c] + Ancestry(s)
  }

  /** `LoxClass::new`: a class without superclass or methods. */
  function NewClass(name: string): (c: Class)
    ensures c.name == name
    ensures Ancestry(c) == [c]
    ensures forall m :: FindMethod(c, m) == None
  {
    Class(name, None, map[])
  }

  /** `find_method`: the class's own method first, else the superclass's. */
  function FindMethod(c: Class, name: string): (r: Option<LoxFunction>)
    ensures name in c.methods ==> r == Some(c.methods[name])
    ensures name !in c.methods && c.superClass.None? ==> r == None
    ensures name !in c.methods && c.superClass.Some? ==> r == FindMethod(c.superClass.value, name)
    decreases c
  {
    if name in c.methods then Some(c.methods[name])
    else match c.superClass
      case Some(s) => FindMethod(s, name)
      case None => None
  }

  /** `name` is defined by the `i`th class of the ancestry and by none nearer. */
  predicate DefinedFirstAt(chain: seq<Class>, name: string, i: int) {
    0 <= i < |chain| && name in chain[i].methods && forall j :: 0 <= j < i ==> name !in chain[j].methods
  }

  /** A found method is the nearest definition on the ancestry. */
  lemma {:induction false} FoundIsNearest(c: Class, name: string)
    requires FindMethod(c, name).Some?
    ensures exists i :: DefinedFirstAt(Ancestry(c), name, i) && FindMethod(c, name).value == Ancestry(c)[i].methods[name]
    decreases c
  {
    var a := Ancestry(c);
    if name in c.methods {
      assert DefinedFirstAt(a, name, 0);
    } else {
      var s := c.superClass.value;
      FoundIsNearest(s, name);
      var b := Ancestry(s);
      assert a == [c] + b;
      var i :| DefinedFirstAt(b, name, i) && FindMethod(s, name).value == b[i].methods[name];
      assert DefinedFirstAt(a, name, i + 1);
    }
  }

  /** A name defined anywhere on the ancestry is found. */
  lemma {:induction false} DefinedIsFound(c: Class, name: string, i: nat)
    requires i < |Ancestry(c)| && name in Ancestry(c)[i].methods
    ensures FindMethod(c, name).Some?
    decreases c
  {
    if name !in c.methods {
      var s := c.superClass.value;
      var b := Ancestry(s);
      assert Ancestry(c) == [c] + b;
      assert i > 0 && b[i - 1] == Ancestry(c)[i];
      DefinedIsFound(s, name, i - 1);
    }
  }

  /** Method lookup finds a method exactly when some class on the ancestry
      defines the name, and then it is the nearest definition. */
  lemma {:induction false} FindMethodIsNearestDefinition(c: Class, name: string)
    ensures FindMethod(c, name).Some? <==> exists i :: 0 <= i < |Ancestry(c)| && name in Ancestry(c)[i].methods
    ensures FindMethod(c, name).Some? ==>
      exists i :: DefinedFirstAt(Ancestry(c), name, i) && FindMethod(c, name).value == Ancestry(c)[i].methods[name]
  {
    if FindMethod(c, name).Some? {
      FoundIsNearest(c, name);
    }
    if exists i :: 0 <= i < |Ancestry(c)| && name in Ancestry(c)[i].methods {
      var i :| 0 <= i < |Ancestry(c)| && name in Ancestry(c)[i].methods;
      DefinedIsFound(c, name, i);
    }
  }

  /** A subclass that defines a method overrides every superclass definition. */
  lemma {:induction false} OwnMethodOverrides(name: string, methods: map<string, LoxFunction>, s: Class, cname: string)
    requires name in methods
    ensures FindMethod(Class(cname, Some(s), methods), name) == Some(methods[name])
  {
  }

  /** `LoxInstance::new`: an instance of `c` with no fields. */
  function NewInstance(c: Class): (inst: Instance)
    ensures inst.cls == c
    ensures forall name :: name !in inst.fields
  {
    Instance(c, map[])
  }

  /** `LoxInstance::set`: stores one field; never fails. */
  function SetField(inst: Instance, name: string, value: Value): (r: Instance)
    ensures r.cls == inst.cls
    ensures r.fields.Keys == inst.fields.Keys + {name} && r.fields[name] == value
    ensures forall k :: k in inst.fields && k != name ==> r.fields[k] == inst.fields[k]
  {
    inst.(fields := inst.fields[name := value])
  }

  function UndefinedProperty(name: string): Error {
    Error(Runtime, "Undefined property '" + name + "'.")
  }

  /** `LoxInstance::get`: a field if there is one, else the class's method
      bound to `handle` (the shared reference to this instance), else an error. */
  function GetProperty(inst: Instance, name: string, handle: Instance,
                       bind: (LoxFunction, Instance) -> LoxFunction): (r: Result<Value>)
    ensures name in inst.fields ==> r == Success(inst.fields[name])
    ensures name !in inst.fields && FindMethod(inst.cls, name).Some? ==>
      r == Success(Callable(bind(FindMethod(inst.cls, name).value, handle)))
    ensures r.Failure? <==> name !in inst.fields && FindMethod(inst.cls, name).None?
    ensures r.Failure? ==> r.error == UndefinedProperty(name)
  {
    if name in inst.fields then Success(inst.fields[name])
    else match FindMethod(inst.cls, name)
      case Some(m) => Success(Callable(bind(m, handle)))
      case None => Failure(UndefinedProperty(name))
  }

  /** Reading a field just set returns it, whatever methods the class has. */
  lemma {:induction false} GetAfterSet(inst: Instance, name: string, value: Value, handle: Instance,
                    bind: (LoxFunction, Instance) -> LoxFunction)
    ensures GetProperty(SetField(inst, name, value), name, handle, bind) == Success(value)
  {
  }

  /** Setting one field leaves every other property read unchanged. */
  lemma {:induction false} SetKeepsOtherProperties(inst: Instance, name: string, other: string, value: Value, handle: Instance,
                                bind: (LoxFunction, Instance) -> LoxFunction)
    requires other != name
    ensures GetProperty(SetField(inst, name, value), other, handle, bind) == GetProperty(inst, other, handle, bind)
  {
  }

  /** `ToString` for a class: the keyword, one space, the name. */
  function ClassToString(c: Class): (s: string)
    ensures |s| == 6 + |c.name| && s[..6] == "class " && s[6..] == c.name
  {
    "class " + c.name
  }

  /** `ToString` for an instance: its class's name followed by " instance". */
  function InstanceToString(inst: Instance): (s: string)
    ensures |s| == |inst.cls.name| + 9 && s[..|inst.cls.name|] == inst.cls.name && s[|inst.cls.name|..] == " instance"
  {
    inst.cls.name + " instance"
  }
}
