/** Resolution of operation references `"<module.path>#<Attr>[.<Attr>...]"`
    (`get_op_handler`) and of documentation sources (`_apply_doc_string`). */
module OperationRefs {
  import opened PyRuntime
  import opened PyStr

  /** A member of the `ResourceType` enumeration with its import prefix. */
  datatype ResourceType = ResourceType(name: string, importPrefix: string)

  /** The reference `_apply_doc_string` reads: module path, model name and,
      after the first `.` of the model part, an optional method name. */
  datatype DocSourceRef = DocSourceRef(path: string, modelName: string, methodName: Option<string>)

  // ---------------------------------------------------------------------
  // Specification of get_op_handler

  /** One turn of the resource-type loop: a matching prefix makes `replace`
      rewrite every occurrence of it with the versioned path. */
  function SubstituteOne(operation: string, rt: ResourceType, versionedPath: ResourceType -> string): string {
    if StartsWith(operation, rt.importPrefix)
    then Replace(operation, rt.importPrefix, versionedPath(rt))
    else operation
  }

  /** The resource types visited in enumeration order, each tested against
      the string as already rewritten. */
  function SubstitutePrefixes(operation: string, rts: seq<ResourceType>,
                              versionedPath: ResourceType -> string): string
    decreases |rts|
  {
    if rts == [] then operation
    else SubstitutePrefixes(SubstituteOne(operation, rts[0], versionedPath), rts[1..], versionedPath)
  }

  /** `import_module(path)` over the given set of importable modules. */
  function ImportModule(modules: map<string, PyObject>, path: string): Result<PyObject> {
    if path == "" then Err(EmptyModuleName)
    else if path in modules then Ok(modules[path])
    else Err(ModuleNotFound(path))
  }

  /** Successive `getattr` along a dotted chain; `None` is an AttributeError. */
  function WalkAttributes(o: PyObject, names: seq<string>): Option<PyObject>
    decreases |names|
  {
    if names == [] then Some(o)
    else match GetAttr(o, names[0])
      case None => None
      case Some(next) => WalkAttributes(next, names[1..])
  }

  /** A plain function is kept; anything else is asked for `__func__`. */
  function Unwrap(o: PyObject): Option<PyObject> {
    if o.FunctionObj? then Some(o) else GetAttr(o, "__func__")
  }

  /** What `get_op_handler(operation)` returns or raises. ValueError and
      AttributeError become the invalid-operation error naming the rewritten
      string; other import errors pass through. */
  function ResolveOperation(operation: string, rts: seq<ResourceType>, versionedPath: ResourceType -> string,
                            modules: map<string, PyObject>): Result<PyObject>
  {
    var op := SubstitutePrefixes(operation, rts, versionedPath);
    var parts := SplitOn(op, '#');
    if |parts| != 2 then Err(InvalidOperation(op))
    else match ImportModule(modules, parts[0])
      case Err(e) => if e == EmptyModuleName then Err(InvalidOperation(op)) else Err(e)
      case Ok(m) =>
        match WalkAttributes(m, SplitOn(parts[1], '.'))
        case None => Err(InvalidOperation(op))
        case Some(o) =>
          match Unwrap(o)
          case None => Err(InvalidOperation(op))
          case Some(f) => Ok(f)
  }

  /** `get_op_handler`: the prefix-substitution loop, the split on `#`, the
      import, the attribute walk and the function/method unwrap. */
  method GetOpHandler(operation: string, rts: seq<ResourceType>, versionedPath: ResourceType -> string,
                      modules: map<string, PyObject>)
    returns (r: Result<PyObject>)
    ensures r == ResolveOperation(operation, rts, versionedPath, modules)
  {
    var op := operation;
    var i := 0;
    while i < |rts|
      invariant 0 <= i <= |rts|
      invariant SubstitutePrefixes(op, rts[i..], versionedPath) == SubstitutePrefixes(operation, rts, versionedPath)
    {
      var rt := rts[i];
      if StartsWith(op, rt.importPrefix) {
        op := Replace(op, rt.importPrefix, versionedPath(rt));
      }
      assert rts[i..][1..] == rts[i + 1..];
      i := i + 1;
    }
    var parts := SplitOn(op, '#');
    if |parts| != 2 {
      return Err(InvalidOperation(op));
    }
    var imported := ImportModule(modules, parts[0]);
    if imported.Err? {
      if imported.error == EmptyModuleName {
        return Err(InvalidOperation(op));
      }
      return imported;
    }
    var names := SplitOn(parts[1], '.');
    var obj := imported.value;
    var j := 0;
    while j < |names|
      invariant 0 <= j <= |names|
      invariant WalkAttributes(obj, names[j..]) == WalkAttributes(imported.value, names)
    {
      var next := GetAttr(obj, names[j]);
      if next.None? {
        return Err(InvalidOperation(op));
      }
      assert names[j..][1..] == names[j + 1..];
      obj := next.value;
      j := j + 1;
    }
    if obj.FunctionObj? {
      return Ok(obj);
    }
    var underlying := GetAttr(obj, "__func__");
    if underlying.None? {
      return Err(InvalidOperation(op));
    }
    return Ok(underlying.value);
  }

  // ---------------------------------------------------------------------
  // Properties of the prefix substitution

  /** Visiting `a` then `b` is visiting `a + b`: each prefix is tested against
      the string the earlier ones produced. */
  lemma {:induction false} SubstituteInSequence(operation: string, a: seq<ResourceType>, b: seq<ResourceType>,
                                                versionedPath: ResourceType -> string)
    ensures SubstitutePrefixes(operation, a + b, versionedPath)
         == SubstitutePrefixes(SubstitutePrefixes(operation, a, versionedPath), b, versionedPath)
    decreases |a|
  {
    if a == [] {
      assert a + b == b;
    } else {
      assert (a + b)[1..] == a[1..] + b;
      SubstituteInSequence(SubstituteOne(operation, a[0], versionedPath), a[1..], b, versionedPath);
    }
  }

  /** A string that matches no prefix passes through unchanged. */
  lemma {:induction false} SubstituteNoMatch(operation: string, rts: seq<ResourceType>,
                                             versionedPath: ResourceType -> string)
    requires forall i :: 0 <= i < |rts| ==> !StartsWith(operation, rts[i].importPrefix)
    ensures SubstitutePrefixes(operation, rts, versionedPath) == operation
    decreases |rts|
  {
    if rts != [] {
      assert forall i :: 0 <= i < |rts[1..]| ==> rts[1..][i] == rts[i + 1];
      SubstituteNoMatch(operation, rts[1..], versionedPath);
    }
  }

  /** A match rewrites every occurrence of the prefix, and a later resource
      type is tested against the rewritten string. */
  lemma SubstituteChains()
    ensures SubstitutePrefixes("a.b#a.b",
      [ResourceType("First", "a.b"), ResourceType("Second", "c")],
      (rt: ResourceType) => if rt.name == "First" then "c" else "d.e") == "d.e#d.e"
  {
    var vp := (rt: ResourceType) => if rt.name == "First" then "c" else "d.e";
    var first, second := ResourceType("First", "a.b"), ResourceType("Second", "c");
    assert StartsWith("a.b#a.b", "a.b") by { assert "a.b#a.b"[..3] == "a.b"; }
    ReplaceFirstPrefix();
    assert SubstituteOne("a.b#a.b", first, vp) == "c#c";
    assert StartsWith("c#c", "c") by { assert "c#c"[..1] == "c"; }
    ReplaceSecondPrefix();
    assert SubstituteOne("c#c", second, vp) == "d.e#d.e";
    assert [first, second][1..] == [second];
  }

  lemma ReplaceFirstPrefix()
    ensures Replace("a.b#a.b", "a.b", "c") == "c#c"
  {
    var s := "a.b#a.b";
    assert s[..3] == "a.b" && s[3..] == "#a.b";
    var t := "#a.b";
    assert t[..3] != "a.b" && t[1..] == "a.b";
    assert Replace("a.b", "a.b", "c") == "c" by { assert "a.b"[3..] == ""; }
    assert Replace(t, "a.b", "c") == "#c";
  }

  lemma ReplaceSecondPrefix()
    ensures Replace("c#c", "c", "d.e") == "d.e#d.e"
  {
    var u := "c#c";
    assert u[..1] == "c" && u[1..] == "#c";
    assert Replace("#c", "c", "d.e") == "#d.e" by {
      assert "#c"[1..] == "c" && "c"[1..] == "";
    }
  }

  // ---------------------------------------------------------------------
  // Properties of get_op_handler

  /** A reference that does not split on `#` into exactly two parts, that is
      one without exactly one `#` after substitution, is invalid. */
  lemma ResolveNeedsOneHash(operation: string, rts: seq<ResourceType>, versionedPath: ResourceType -> string,
                            modules: map<string, PyObject>)
    requires Count(SubstitutePrefixes(operation, rts, versionedPath), '#') != 1
    ensures ResolveOperation(operation, rts, versionedPath, modules)
         == Err(InvalidOperation(SubstitutePrefixes(operation, rts, versionedPath)))
  {
    SplitOnJoin(SubstitutePrefixes(operation, rts, versionedPath), '#');
  }

  /** A failed attribute lookup anywhere in the chain makes the reference
      invalid, whatever rewriting produced it. */
  lemma ResolveFailedLookup(operation: string, rts: seq<ResourceType>, versionedPath: ResourceType -> string,
                            modulePath: string, attrPath: string, modules: map<string, PyObject>)
    requires SubstitutePrefixes(operation, rts, versionedPath) == modulePath + "#" + attrPath
    requires '#' !in modulePath && '#' !in attrPath
    requires modulePath in modules
    requires WalkAttributes(modules[modulePath], SplitOn(attrPath, '.')).None?
    ensures ResolveOperation(operation, rts, versionedPath, modules)
         == Err(InvalidOperation(modulePath + "#" + attrPath))
  {
    HashSplit(modulePath, attrPath);
  }

  /** A module that cannot be imported is not turned into the
      invalid-operation error: the ImportError passes through. */
  lemma ResolveMissingModule(operation: string, rts: seq<ResourceType>, versionedPath: ResourceType -> string,
                             modulePath: string, attrPath: string, modules: map<string, PyObject>)
    requires SubstitutePrefixes(operation, rts, versionedPath) == modulePath + "#" + attrPath
    requires '#' !in modulePath && '#' !in attrPath
    requires modulePath != "" && modulePath !in modules
    ensures ResolveOperation(operation, rts, versionedPath, modules) == Err(ModuleNotFound(modulePath))
  {
    HashSplit(modulePath, attrPath);
  }

  /** The outcomes of the final unwrap, whatever rewriting produced the
      reference: a function is returned as it is, a method yields its
      underlying function, another object yields its `__func__` attribute or
      makes the reference invalid. */
  lemma ResolveUnwraps(operation: string, rts: seq<ResourceType>, versionedPath: ResourceType -> string,
                       modulePath: string, attrPath: string, modules: map<string, PyObject>)
    requires SubstitutePrefixes(operation, rts, versionedPath) == modulePath + "#" + attrPath
    requires '#' !in modulePath && '#' !in attrPath
    requires modulePath != "" && modulePath in modules
    requires WalkAttributes(modules[modulePath], SplitOn(attrPath, '.')).Some?
    ensures var target := WalkAttributes(modules[modulePath], SplitOn(attrPath, '.')).value;
            var r := ResolveOperation(operation, rts, versionedPath, modules);
            && (target.FunctionObj? ==> r == Ok(target))
            && (target.MethodObj? ==> r == Ok(FunctionObj(target.f, target.fattrs)))
            && (target.Namespace? && "__func__" in target.attrs ==> r == Ok(target.attrs["__func__"]))
            && (target.Namespace? && "__func__" !in target.attrs ==>
                  r == Err(InvalidOperation(modulePath + "#" + attrPath)))
  {
    HashSplit(modulePath, attrPath);
  }

  lemma HashSplit(modulePath: string, attrPath: string)
    requires '#' !in modulePath && '#' !in attrPath
    ensures SplitOn(modulePath + "#" + attrPath, '#') == [modulePath, attrPath]
  {
    var s := modulePath + "#" + attrPath;
    SplitOnJoin(s, '#');
    var parts := SplitOn(s, '#');
    CountAppend(modulePath + "#", attrPath, '#');
    CountAppend(modulePath, "#", '#');
    assert Count("#", '#') == 1;
    NoCount(modulePath, '#');
    NoCount(attrPath, '#');
    assert |parts| == 2;
    assert parts[0] + "#" + parts[1] == s;
    assert '#' !in parts[0] && '#' !in parts[1];
    FirstSeparator(parts[0], parts[1], modulePath, attrPath, '#');
  }

  lemma {:induction false} CountAppend(a: string, b: string, c: char)
    ensures Count(a + b, c) == Count(a, c) + Count(b, c)
    decreases |a|
  {
    if a == [] {
      assert a + b == b;
    } else {
      assert (a + b)[1..] == a[1..] + b;
      CountAppend(a[1..], b, c);
    }
  }

  lemma {:induction false} NoCount(a: string, c: char)
    requires c !in a
    ensures Count(a, c) == 0
    decreases |a|
  {
    if a != [] {
      assert c !in a[1..] by { assert forall i :: 0 <= i < |a[1..]| ==> a[1..][i] == a[i + 1]; }
      NoCount(a[1..], c);
    }
  }

  /** What `get_op_handler` returns is never a bound method unless it was read
      from a namespace's own `__func__` attribute: a function comes back as it
      is, and a method is replaced by its underlying function. */
  lemma NeverBoundMethod(operation: string, rts: seq<ResourceType>, versionedPath: ResourceType -> string,
                         modules: map<string, PyObject>)
    requires ResolveOperation(operation, rts, versionedPath, modules).Ok?
    ensures var op := SubstitutePrefixes(operation, rts, versionedPath);
            var parts := SplitOn(op, '#');
            |parts| == 2 && parts[0] in modules &&
            var target := WalkAttributes(modules[parts[0]], SplitOn(parts[1], '.'));
            target.Some? &&
            (!target.value.Namespace? ==> ResolveOperation(operation, rts, versionedPath, modules).value.FunctionObj?)
  {
  }

  // ---------------------------------------------------------------------
  // _apply_doc_string

  /** `(path, model_name) = src.split('#', 1)` and, if the model part has a
      `.`, `(model_name, method_name) = model_name.split('.', 1)`. */
  function ParseDocStringSource(src: string): (r: Result<DocSourceRef>)
    ensures r.Ok? <==> '#' in src
    ensures r.Err? ==> r.error == UnpackMismatch
  {
    SplitOnceParts(src, '#');
    var p := SplitOnce(src, '#');
    if |p| != 2 then Err(UnpackMismatch)
    else if '.' in p[1] then
      SplitOnceParts(p[1], '.');
      var q := SplitOnce(p[1], '.');
      Ok(DocSourceRef(p[0], q[0], Some(q[1])))
    else Ok(DocSourceRef(p[0], p[1], None))
  }

  /** The text form of a documentation source reference. */
  function RenderDocSource(ref: DocSourceRef): string {
    ref.path + "#" + ref.modelName + (if ref.methodName.Some? then "." + ref.methodName.value else "")
  }

  /** A parsed reference has no `#` in its path and no `.` in its model
      name, and its text form is the string it was parsed from. */
  lemma ParseRendersBack(src: string)
    requires ParseDocStringSource(src).Ok?
    ensures var ref := ParseDocStringSource(src).value;
            '#' !in ref.path && '.' !in ref.modelName && RenderDocSource(ref) == src
  {
    SplitOnceParts(src, '#');
    var p := SplitOnce(src, '#');
    assert src == p[0] + ['#'] + p[1];
    if '.' in p[1] {
      SplitOnceParts(p[1], '.');
      var q := SplitOnce(p[1], '.');
      assert p[1] == q[0] + ['.'] + q[1];
      assert ParseDocStringSource(src) == Ok(DocSourceRef(p[0], q[0], Some(q[1])));
      RenderWithMethod(p[0], q[0], q[1]);
    } else {
      assert ParseDocStringSource(src) == Ok(DocSourceRef(p[0], p[1], None));
      assert p[0] + "#" + p[1] + "" == p[0] + ['#'] + p[1];
    }
  }

  lemma RenderWithMethod(path: string, model: string, methodName: string)
    ensures RenderDocSource(DocSourceRef(path, model, Some(methodName))) == path + ['#'] + (model + ['.'] + methodName)
  {
    PyStr.AppendAssoc(path + ['#'] + model, ['.'], methodName);
    PyStr.AppendAssoc(path + ['#'], model, ['.'] + methodName);
    PyStr.AppendAssoc(model, ['.'], methodName);
  }

  /** Parsing the text form of a reference gives the reference back. */
  lemma ParseRenderRoundTrip(ref: DocSourceRef)
    requires '#' !in ref.path && '.' !in ref.modelName
    ensures ParseDocStringSource(RenderDocSource(ref)) == Ok(ref)
  {
    var src := RenderDocSource(ref);
    var tail := ref.modelName + (if ref.methodName.Some? then "." + ref.methodName.value else "");
    assert src == ref.path + "#" + tail;
    assert '#' in src by { assert src[|ref.path|] == '#'; }
    var r := ParseDocStringSource(src);
    ParseRendersBack(src);
    var got := r.value;
    var gotTail := got.modelName + (if got.methodName.Some? then "." + got.methodName.value else "");
    assert got.path + "#" + gotTail == src;
    FirstSeparator(got.path, gotTail, ref.path, tail, '#');
    assert '.' in tail <==> ref.methodName.Some? by {
      if ref.methodName.Some? { assert tail[|ref.modelName|] == '.'; }
    }
    assert '.' in gotTail <==> got.methodName.Some? by {
      if got.methodName.Some? { assert gotTail[|got.modelName|] == '.'; }
    }
    if ref.methodName.Some? {
      assert got.methodName.Some?;
      assert gotTail == got.modelName + ['.'] + got.methodName.value;
      assert tail == ref.modelName + ['.'] + ref.methodName.value;
      FirstSeparator(got.modelName, got.methodName.value, ref.modelName, ref.methodName.value, '.');
    } else {
      assert tail == ref.modelName;
      assert got.methodName.None?;
      assert gotTail == got.modelName;
    }
  }

  lemma SeparatorPosition(a: string, b: string, sep: char)
    requires sep !in a
    ensures (a + [sep] + b)[|a|] == sep
    ensures forall i :: 0 <= i < |a| ==> (a + [sep] + b)[i] != sep
  {
    assert forall i :: 0 <= i < |a| ==> (a + [sep] + b)[i] == a[i];
  }

  /** Two splits of one string at a first separator agree. */
  lemma FirstSeparator(a: string, b: string, c: string, d: string, sep: char)
    requires sep !in a && sep !in c
    requires a + [sep] + b == c + [sep] + d
    ensures a == c && b == d
  {
    SeparatorPosition(a, b, sep);
    SeparatorPosition(c, d, sep);
    var s := a + [sep] + b;
    assert |a| == |c|;
    assert a == s[..|a|] && c == s[..|c|];
    assert b == s[|a| + 1..] && d == s[|c| + 1..];
  }

  /** `_apply_doc_string`: which object's documentation is copied onto the
      destination (`None` when `doc_string_source` is absent or empty).
      `models` is what `get_models` found, `None` when it found nothing or
      raised AttributeError. */
  function ApplyDocString(docSource: Value, models: Option<PyObject>, modules: map<string, PyObject>)
    : (r: Result<Option<PyObject>>)
    ensures !Truthy(docSource) ==> r == Ok(None)
    ensures Truthy(docSource) && !docSource.StrV? ==>
      r == Err(if HasName(docSource) then DocSourceNotString else AttributeMissing("__name__"))
    ensures Truthy(docSource) && docSource.StrV? && models.Some? ==> r == Ok(models)
    ensures Truthy(docSource) && docSource.StrV? && models.None? && '#' !in docSource.s ==> r == Err(UnpackMismatch)
    ensures Truthy(docSource) && docSource.StrV? && models.None? && '#' in docSource.s ==>
      var ref := ParseDocStringSource(docSource.s).value;
      var imported := ImportModule(modules, ref.path);
      && (imported.Err? ==> r == Err(imported.error))
      && (imported.Ok? && GetAttr(imported.value, ref.modelName).None? ==> r == Err(AttributeMissing(ref.modelName)))
      && (imported.Ok? && GetAttr(imported.value, ref.modelName).Some? ==>
            var model := GetAttr(imported.value, ref.modelName).value;
            && (ref.methodName.None? || ref.methodName.value == "" ==> r == Ok(Some(model)))
            && (ref.methodName.Some? && ref.methodName.value != "" ==>
                  r == match GetAttr(model, ref.methodName.value)
                       case None => Err(DocSourceNotFound(docSource.s))
                       case Some(found) => Ok(Some(found))))
    ensures r.Ok? && Truthy(docSource) ==> r.value.Some?
  {
    if !Truthy(docSource) then Ok(None)
    else if !docSource.StrV? then
      // the error message reads `doc_string_source.__name__`
      if HasName(docSource) then Err(DocSourceNotString) else Err(AttributeMissing("__name__"))
    else if models.Some? then Ok(models)
    else match ParseDocStringSource(docSource.s)
      case Err(e) => Err(e)
      case Ok(ref) =>
        match ImportModule(modules, ref.path)
        case Err(e) => Err(e)
        case Ok(m) =>
          match GetAttr(m, ref.modelName)
          case None => Err(AttributeMissing(ref.modelName))
          case Some(model) =>
            var found := if ref.methodName.Some? && ref.methodName.value != ""
                         then GetAttr(model, ref.methodName.value) else Some(model);
            if found.None? then Err(DocSourceNotFound(docSource.s)) else Ok(found)
  }
}
