/** The small part of Python's object model that the command loader relies on:
    values passed as keyword arguments, their truthiness, `or`, `callable`,
    attribute lookup on an abstract object tree, and the exceptions raised. */
module PyRuntime {

  datatype Option<+T> = None | Some(value: T)

  datatype Result<+T> = Ok(value: T) | Err(error: Error)

  /** A function object, identified by its qualified name. */
  datatype Func = Func(qualname: string)

  /** An object reachable by `import_module` and `getattr`. Modules, classes
      and instances are namespaces of named attributes. A function carries the
      attributes set on it (such as `__wrapped__`). A method (bound or class
      method) wraps a function, `__func__`, and looks up every other attribute
      on that function. */
  datatype PyObject =
    | FunctionObj(f: Func, fattrs: map<string, PyObject>)
    | MethodObj(f: Func, fattrs: map<string, PyObject>)
    | Namespace(attrs: map<string, PyObject>)

  /** A keyword-argument value. `Sym` stands for enumeration members and
      sentinels such as `ResourceType.MGMT_STORAGE` or `PROFILE_TYPE`. */
  datatype Value =
    | NoneV
    | BoolV(b: bool)
    | IntV(i: int)
    | StrV(s: string)
    | Sym(name: string)
    | ObjV(o: PyObject)

  /** The exceptions the core raises or lets through. */
  datatype Error =
    | OperationNotString          // TypeError: Operation must be a string
    | HandlerNotCallable          // TypeError: Handler must be a callable
    | NotExactlyOneOfOperationOrHandler
    | InvalidOperation(operation: string)  // ValueError raised by get_op_handler
    | ModuleNotFound(moduleName: string)       // ImportError let through by get_op_handler
    | EmptyModuleName                      // ValueError of import_module('')
    | AttributeMissing(attribute: string)  // AttributeError
    | UnpackMismatch                       // ValueError of a two-name tuple unpacking
    | DocSourceNotString                   // CLIError: applying doc_string_source directly
    | DocSourceNotFound(source: string)    // CLIError: source not found

  /** Python's truth value. Objects without `__bool__`/`__len__` are true. */
  predicate Truthy(v: Value) {
    match v
    case NoneV => false
    case BoolV(b) => b
    case IntV(i) => i != 0
    case StrV(s) => s != ""
    case Sym(_) => true
    case ObjV(_) => true
  }

  /** Python's `a or b`: the first operand when it is truthy, else the second. */
  function PyOr(a: Value, b: Value): (r: Value)
    ensures r == a || r == b
    ensures Truthy(r) <==> Truthy(a) || Truthy(b)
    ensures Truthy(a) ==> r == a
    ensures !Truthy(a) ==> r == b
  {
    if Truthy(a) then a else b
  }

  /** Python's `callable`: functions and methods are, a namespace is when it
      defines `__call__` (a class or an instance of a class with `__call__`). */
  predicate Callable(v: Value) {
    v.ObjV? && (v.o.FunctionObj? || v.o.MethodObj? || (v.o.Namespace? && "__call__" in v.o.attrs))
  }

  /** `getattr(o, name)` for attributes whose value is an object; `None`
      stands for AttributeError. */
  function GetAttr(o: PyObject, name: string): Option<PyObject> {
    match o
    case Namespace(attrs) => if name in attrs then Some(attrs[name]) else None
    case FunctionObj(_, fattrs) => if name in fattrs then Some(fattrs[name]) else None
    case MethodObj(f, fattrs) =>
      if name == "__func__" then Some(FunctionObj(f, fattrs))
      else if name in fattrs then Some(fattrs[name]) else None
  }

  /** A method's `__func__` is a plain function, and every other attribute of
      the method is that function's attribute. */
  lemma MethodForwardsToFunction(m: PyObject, name: string)
    requires m.MethodObj?
    ensures GetAttr(m, "__func__") == Some(FunctionObj(m.f, m.fattrs))
    ensures name != "__func__" ==> GetAttr(m, name) == GetAttr(GetAttr(m, "__func__").value, name)
  {
  }

  /** Whether `v.__name__` exists: functions, methods (through their
      function), and namespaces such as modules and classes that define it.
      Integers, booleans and enumeration members have none. */
  predicate HasName(v: Value) {
    v.ObjV? && (v.o.FunctionObj? || v.o.MethodObj? || (v.o.Namespace? && "__name__" in v.o.attrs))
  }

  /** `d.get(key, None)` on a keyword-argument dictionary. */
  function Get(d: map<string, Value>, key: string): Value {
    if key in d then d[key] else NoneV
  }
}
