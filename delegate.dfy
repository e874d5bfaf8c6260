/**
 * TDelegate (SpyX/Core/Delegate.h): a callable bound either to a free function or
 * to an object and one of its member functions. It stores three raw pointers,
 * MObject, MStub and MMethod, and calls through the stub. The signature of the
 * bound callable does not matter to the binding logic, so the model has one class.
 */
module Delegates {

  /** A raw pointer as the delegate stores it; 0 is nullptr. */
  type Ptr = nat

  const Null: Ptr := 0

  /** The trampoline MStub points at; NoStub is nullptr. */
  datatype Stub = NoStub | InvokeStatic | InvokeMember | InvokeConstMember

  /** The call Execute performs: MStub applied to MObject, MMethod and the arguments. */
  datatype Call =
    | StaticCall(fn: Ptr)
    | MemberCall(instance: Ptr, member: Ptr)
    | ConstMemberCall(instance: Ptr, member: Ptr)

  class Delegate {
    var obj: Ptr      // MObject: the bound object, or the free function for a static binding
    var stub: Stub    // MStub
    var member: Ptr   // MMethod: the member-function pointer, nullptr for a static binding

    /** What every binding operation establishes: an unbound delegate holds only nulls,
        and a static binding has no method pointer. */
    ghost predicate Valid()
      reads this
    {
      && (stub == NoStub ==> obj == Null && member == Null)
      && (stub == InvokeStatic ==> member == Null)
    }

    /** TDelegate() = default: every field nullptr. */
    constructor ()
      ensures Valid() && !IsBound()
      ensures obj == Null && stub == NoStub && member == Null
    {
      obj, stub, member := Null, NoStub, Null;
    }

    /** IsBound(): true exactly when a stub is set; an unbound delegate holds neither an
        object nor a method, so there is nothing Execute could call. */
    function IsBound(): (b: bool)
      reads this
      ensures Valid() && !b ==> obj == Null && member == Null
    {
      stub != NoStub
    }

    /** operator==: compares MMethod and nothing else, so it is reflexive, and two
        delegates without a method pointer (unbound, or bound to a free function) are
        equal whatever they call. */
    function Equals(other: Delegate): (eq: bool)
      reads this, other
      ensures this == other ==> eq
      ensures (Valid() && other.Valid() && (stub == NoStub || stub == InvokeStatic)
               && (other.stub == NoStub || other.stub == InvokeStatic)) ==> eq
    {
      member == other.member
    }

    /** Execute(args): asserts IsBound(), then calls the stub with MObject and MMethod. */
    function Execute(): (c: Call)
      reads this
      requires IsBound()
      ensures c.StaticCall? <==> stub == InvokeStatic
      ensures c.ConstMemberCall? <==> stub == InvokeConstMember
      ensures c.StaticCall? ==> c.fn == obj
      ensures !c.StaticCall? ==> c.instance == obj && c.member == member
    {
      match stub
      case InvokeStatic => StaticCall(obj)
      case InvokeMember => MemberCall(obj, member)
      case InvokeConstMember => ConstMemberCall(obj, member)
    }

    /** BindStatic(Function): overwrites all three fields, whatever was bound before. */
    method BindStatic(f: Ptr)
      modifies this
      ensures Valid() && IsBound()
      ensures obj == f && member == Null && stub == InvokeStatic
      ensures Execute() == StaticCall(f)
    {
      obj := f;
      member := Null;
      stub := InvokeStatic;
    }

    /** BindRaw(Object, Method) for a non-const member function. */
    method BindRaw(instance: Ptr, m: Ptr)
      modifies this
      ensures Valid() && IsBound()
      ensures obj == instance && member == m && stub == InvokeMember
      ensures Execute() == MemberCall(instance, m)
    {
      obj := instance;
      member := m;
      stub := InvokeMember;
    }

    /** BindRaw(Object, Method) for a const member function. */
    method BindRawConst(instance: Ptr, m: Ptr)
      modifies this
      ensures Valid() && IsBound()
      ensures obj == instance && member == m && stub == InvokeConstMember
      ensures Execute() == ConstMemberCall(instance, m)
    {
      obj := instance;
      member := m;
      stub := InvokeConstMember;
    }

    /** Unbind(): back to the default state. */
    method Unbind()
      modifies this
      ensures Valid() && !IsBound()
      ensures obj == Null && stub == NoStub && member == Null
    {
      obj := Null;
      member := Null;
      stub := NoStub;
    }

    /** The implicit copy assignment, used when a delegate is passed by value and stored. */
    method CopyFrom(other: Delegate)
      requires other.Valid()
      modifies this
      ensures Valid()
      ensures obj == old(other.obj) && stub == old(other.stub) && member == old(other.member)
      ensures IsBound() == old(other.IsBound())
      ensures IsBound() ==> Execute() == old(other.Execute())
    {
      obj, stub, member := other.obj, other.stub, other.member;
    }
  }

  /** Any two delegates that are unbound or bound to free functions compare equal,
      because neither carries a method pointer. */
  lemma StaticOrUnboundCompareEqual(a: Delegate, b: Delegate)
    requires a.Valid() && b.Valid()
    requires a.stub == NoStub || a.stub == InvokeStatic
    requires b.stub == NoStub || b.stub == InvokeStatic
    ensures a.Equals(b) && b.Equals(a)
  {
  }

  /** Two delegates bound statically to different functions call different functions
      and still compare equal: operator== is not a test of what Execute calls. */
  method StaticBindingsCompareEqual(f: Ptr, g: Ptr) returns (a: Delegate, b: Delegate)
    ensures a.IsBound() && b.IsBound() && a.Equals(b)
    ensures a.Execute() == StaticCall(f) && b.Execute() == StaticCall(g)
    ensures f != g ==> a.Execute() != b.Execute()
  {
    a := new Delegate();
    a.BindStatic(f);
    b := new Delegate();
    b.BindStatic(g);
  }
}
