/** The `ShaderProgram` derive macro: which struct fields become uniforms,
    what is generated for them, and when the expansion panics.  Token
    output is modelled by the names of the generated methods. */
module ShaderMacro {
  import opened Base

  // ---------------------------------------------------------------------
  // `str::splitn` and its inverse
  // ---------------------------------------------------------------------

  /** The index of the first `c` in `s`, if any. */
  function Find(s: string, c: char): (r: Option<nat>)
    ensures r.Some? ==> r.value < |s| && s[r.value] == c && c !in s[..r.value]
    ensures r.None? ==> c !in s
  {
    if |s| == 0 then None
    else if s[0] == c then Some(0)
    else
      match Find(s[1..], c)
      case None => None
      case Some(i) =>
        assert s[..i + 1] == [s[0]] + s[1..][..i];
        Some(i + 1)
  }

  /** `s.splitn(n, sep)`: at most `n` pieces; the last one keeps every
      further separator. */
  function SplitN(s: string, n: nat, sep: char): (r: seq<string>)
    requires n >= 1
    ensures 1 <= |r| <= n
    ensures forall k :: 0 <= k < |r| - 1 ==> sep !in r[k]
    ensures |r| < n ==> sep !in r[|r| - 1]
  {
    if n == 1 then [s]
    else
      match Find(s, sep)
      case None => [s]
      case Some(i) => [s[..i]] + SplitN(s[i + 1..], n - 1, sep)
  }

  /** The pieces joined back with the separator. */
  function Join(parts: seq<string>, sep: char): string
    requires |parts| >= 1
  {
    if |parts| == 1 then parts[0] else parts[0] + [sep] + Join(parts[1..], sep)
  }

  lemma JoinCons(p: string, rest: seq<string>, sep: char)
    requires |rest| >= 1
    ensures Join([p] + rest, sep) == p + [sep] + Join(rest, sep)
  {
    assert ([p] + rest)[1..] == rest;
  }

  lemma SplitAround(s: string, i: nat)
    requires i < |s|
    ensures s == s[..i] + [s[i]] + s[i + 1..]
  {
  }

  /** Joining the pieces with `'_'` gives back the field name. */
  lemma {:induction false} JoinSplitN(s: string, n: nat, sep: char)
    requires n >= 1
    ensures Join(SplitN(s, n, sep), sep) == s
  {
    if n > 1 {
      match Find(s, sep)
      case None =>
      case Some(i) =>
        var rest := SplitN(s[i + 1..], n - 1, sep);
        JoinSplitN(s[i + 1..], n - 1, sep);
        JoinAround(s, i, rest, sep);
    }
  }

  /** Joining the piece before a separator with pieces that join to the
      text after it gives the whole text. */
  lemma JoinAround(s: string, i: nat, rest: seq<string>, sep: char)
    requires i < |s| && s[i] == sep && |rest| >= 1 && Join(rest, sep) == s[i + 1..]
    ensures Join([s[..i]] + rest, sep) == s
  {
    JoinCons(s[..i], rest, sep);
    SplitAround(s, i);
  }

  /** Splitting a join of separator-free pieces gives the pieces back. */
  lemma {:induction false} SplitNJoin(parts: seq<string>, sep: char)
    requires |parts| >= 1
    requires forall k :: 0 <= k < |parts| - 1 ==> sep !in parts[k]
    ensures SplitN(Join(parts, sep), |parts|, sep) == parts
  {
    if |parts| > 1 {
      var tail := parts[1..];
      forall k | 0 <= k < |tail| - 1
        ensures sep !in tail[k]
      {
        assert tail[k] == parts[k + 1];
      }
      SplitNJoin(tail, sep);
      JoinCons(parts[0], tail, sep);
      assert [parts[0]] + tail == parts;
      SplitNCons(parts[0], Join(tail, sep), |parts|, sep);
    }
  }

  /** A separator-free first piece splits off on its own. */
  lemma SplitNCons(a: string, b: string, n: nat, sep: char)
    requires n >= 2 && sep !in a
    ensures SplitN(a + [sep] + b, n, sep) == [a] + SplitN(b, n - 1, sep)
  {
    var s := a + [sep] + b;
    FindAfter(a, sep, b);
    assert s[|a| + 1..] == b;
    assert s[..|a|] == a;
  }

  lemma FindAfter(a: string, sep: char, b: string)
    requires sep !in a
    ensures Find(a + [sep] + b, sep) == Some(|a|)
  {
    var s := a + [sep] + b;
    assert s[|a|] == sep;
    assert s[..|a|] == a;
    assert forall j :: 0 <= j < |a| ==> s[j] == a[j];
    assert forall i :: |a| < i <= |s| ==> s[..i][|a|] == sep;
  }

  // ---------------------------------------------------------------------
  // Fields
  // ---------------------------------------------------------------------

  /** A field type: a path with its segment names, or any other type
      (reference, array, tuple …). */
  datatype Ty = PathTy(segments: seq<string>) | OtherTy

  /** A field; tuple structs have no identifiers. */
  datatype Field = Field(ty: Ty, ident: Option<string>)

  /** The derive input: a struct with its fields, or an enum/union. */
  datatype Input = Struct(name: string, fields: seq<Field>) | NotStruct(name: string)

  /** The six recognised uniform types and the setter each selects. */
  datatype UniformType = F | I | I1v | Vec3U | Vec4U | Mat4U

  function ParseUniformType(s: string): (r: Option<UniformType>)
    ensures r.Some? <==> s in {"f", "i", "i1v", "vec3", "vec4", "mat4"}
  {
    if s == "f" then Some(F)
    else if s == "i" then Some(I)
    else if s == "i1v" then Some(I1v)
    else if s == "vec3" then Some(Vec3U)
    else if s == "vec4" then Some(Vec4U)
    else if s == "mat4" then Some(Mat4U)
    else None
  }

  /** A field that became a uniform: its identifier, type and GLSL name. */
  datatype Uniform = Uniform(field: string, ty: UniformType, name: string)

  /** The first path segment is `i32` (reading it needs a non-empty path). */
  predicate PathNamed(f: Field, t: string) {
    f.ty.PathTy? && |f.ty.segments| > 0 && f.ty.segments[0] == t
  }

  /** `uniform_<type>_<name>`: three pieces, the first `uniform`. */
  predicate IsUniformName(id: string) {
    var parts := SplitN(id, 3, '_');
    |parts| == 3 && parts[0] == "uniform"
  }

  predicate IsUniformField(f: Field) {
    PathNamed(f, "i32") && f.ident.Some? && IsUniformName(f.ident.value)
  }

  /** The field the program-id flag looks for. */
  predicate IsProgramId(f: Field) {
    PathNamed(f, "u32") && f.ident == Some("program_id")
  }

  /** `format_ident!("{}", name)` accepts the uniform name.  The name is
      the tail of a field identifier, so it holds identifier characters
      only; it is rejected when it is empty or starts with a digit. */
  predicate IdentName(name: string) {
    |name| > 0 && name[0] !in "0123456789"
  }

  /** The field makes the loop panic: an empty path (`first().unwrap()`),
      a path-typed field without a name (`ident.unwrap()`), or a uniform
      whose name is no identifier or whose type is unknown. */
  predicate Panics(f: Field) {
    && f.ty.PathTy?
    && (|f.ty.segments| == 0 || f.ident.None?
        || (IsUniformField(f) && BadUniform(SplitN(f.ident.value, 3, '_'))))
  }

  /** The pieces of a uniform field's identifier that the derive rejects:
      the name first, then the type tag. */
  predicate BadUniform(parts: seq<string>)
    requires |parts| == 3
  {
    !IdentName(parts[2]) || ParseUniformType(parts[1]).None?
  }

  // ---------------------------------------------------------------------
  // The field loop
  // ---------------------------------------------------------------------

  /** The loop's state: the uniforms so far, `contains_field_program_id`
      and `only_contains_shader_fields`. */
  datatype Acc = Acc(uniforms: seq<Uniform>, hasProgramId: bool, onlyShader: bool)

  /** One iteration of the field loop. */
  function FieldStep(acc: Acc, f: Field): (r: Result<Acc>)
    ensures r.Ok? <==> !Panics(f)
  {
    match f.ty
    case OtherTy => Ok(acc)
    case PathTy(segs) =>
      if |segs| == 0 then Panic("called `Option::unwrap()` on a `None` value")
      else if f.ident.None? then Panic("called `Option::unwrap()` on a `None` value")
      else
        var ty, id := segs[0], f.ident.value;
        if ty != "i32" then
          Ok(acc.(hasProgramId := acc.hasProgramId || (id == "program_id" && ty == "u32")))
        else
          var parts := SplitN(id, 3, '_');
          if |parts| == 3 && parts[0] == "uniform" then
            if !IdentName(parts[2]) then Panic("not a valid identifier: " + parts[2])
            else match ParseUniformType(parts[1])
            case None => Panic("uniform type not recognized => " + parts[1])
            case Some(ut) => Ok(acc.(uniforms := acc.uniforms + [Uniform(id, ut, parts[2])]))
          else Ok(acc.(onlyShader := false))
  }

  /** The uniform a uniform field declares. */
  function UniformOf(f: Field): (u: Uniform)
    requires IsUniformField(f) && !Panics(f)
    ensures u.field == f.ident.value && IdentName(u.name)
    ensures Join(["uniform", (match u.ty case F => "f" case I => "i" case I1v => "i1v"
                              case Vec3U => "vec3" case Vec4U => "vec4" case Mat4U => "mat4"), u.name], '_')
            == u.field
  {
    var id := f.ident.value;
    var parts := SplitN(id, 3, '_');
    JoinSplitN(id, 3, '_');
    assert parts == [parts[0], parts[1], parts[2]];
    Uniform(id, ParseUniformType(parts[1]).value, parts[2])
  }

  /** Reference definition: the uniforms of the fields, in declaration
      order. */
  function UniformsOf(fields: seq<Field>): seq<Uniform>
    requires forall k :: 0 <= k < |fields| ==> !Panics(fields[k])
  {
    if |fields| == 0 then []
    else
      var last := fields[|fields| - 1];
      UniformsOf(fields[..|fields| - 1]) + (if IsUniformField(last) then [UniformOf(last)] else [])
  }

  /** What one iteration does to each part of the loop state. */
  lemma FieldStepEffect(mid: Acc, f: Field)
    requires !Panics(f)
    ensures FieldStep(mid, f).Ok?
    ensures FieldStep(mid, f).value.uniforms == mid.uniforms + (if IsUniformField(f) then [UniformOf(f)] else [])
    ensures FieldStep(mid, f).value.hasProgramId == (mid.hasProgramId || IsProgramId(f))
    ensures FieldStep(mid, f).value.onlyShader == (mid.onlyShader && (PathNamed(f, "i32") ==> IsUniformField(f)))
  {
    if IsUniformField(f) {
      var id := f.ident.value;
      var parts := SplitN(id, 3, '_');
      assert FieldStep(mid, f).value.uniforms == mid.uniforms + [Uniform(id, ParseUniformType(parts[1]).value, parts[2])];
    }
  }

  /** The field loop over all fields, from left to right. */
  function FieldLoop(acc: Acc, fields: seq<Field>): (r: Result<Acc>)
    ensures r.Ok? <==> forall k :: 0 <= k < |fields| ==> !Panics(fields[k])
    ensures r.Ok? ==> r.value.uniforms == acc.uniforms + UniformsOf(fields)
    ensures r.Ok? ==> (r.value.hasProgramId <==>
      acc.hasProgramId || exists k :: 0 <= k < |fields| && IsProgramId(fields[k]))
    ensures r.Ok? ==> (r.value.onlyShader <==>
      acc.onlyShader && forall k :: 0 <= k < |fields| && PathNamed(fields[k], "i32") ==> IsUniformField(fields[k]))
    decreases |fields|
  {
    if |fields| == 0 then Ok(acc)
    else
      var init := fields[..|fields| - 1];
      var last := fields[|fields| - 1];
      assert forall k :: 0 <= k < |init| ==> init[k] == fields[k];
      assert fields == init + [last];
      match FieldLoop(acc, init)
      case Panic(why) => Panic(why)
      case Ok(mid) =>
        if Panics(last) then
          FieldStep(mid, last)
        else
          FieldStepEffect(mid, last);
          FieldStep(mid, last)
  }

  // ---------------------------------------------------------------------
  // The expansion
  // ---------------------------------------------------------------------

  /** What the derive generates: the methods of the `impl` block by name,
      the fields `new()` initialises to -1, and the calls `setup()` makes. */
  datatype Expansion = Expansion(
    setters: seq<string>,
    emitsNew: bool,
    newFields: seq<string>,
    setupFunctions: seq<string>,
    setupCalls: seq<string>)

  /** The functions generated per uniform, in field order: `set_<name>`
      for the setters and `setup_<name>` for the location lookups. */
  function Generated(prefix: string, us: seq<Uniform>): (r: seq<string>)
    ensures |r| == |us| && forall k :: 0 <= k < |us| ==> r[k] == prefix + us[k].name
  {
    seq(|us|, k requires 0 <= k < |us| => prefix + us[k].name)
  }

  function FieldNames(us: seq<Uniform>): (r: seq<string>)
    ensures |r| == |us| && forall k :: 0 <= k < |us| ==> r[k] == us[k].field
  {
    seq(|us|, k requires 0 <= k < |us| => us[k].field)
  }

  /** `#[derive(ShaderProgram)]`. */
  function Derive(input: Input): (r: Result<Expansion>)
    ensures r.Ok? <==>
      && input.Struct?
      && (forall k :: 0 <= k < |input.fields| ==> !Panics(input.fields[k]))
      && (exists k :: 0 <= k < |input.fields| && IsProgramId(input.fields[k]))
    ensures input.NotStruct? ==> r == Panic("no data in struct")
    ensures r.Ok? ==>
      && r.value.setupCalls == r.value.setupFunctions == Generated("setup_", UniformsOf(input.fields))
      && r.value.setters == Generated("set_", UniformsOf(input.fields))
      && (r.value.emitsNew <==>
            forall k :: 0 <= k < |input.fields| && PathNamed(input.fields[k], "i32") ==> IsUniformField(input.fields[k]))
      && (r.value.emitsNew ==> r.value.newFields == FieldNames(UniformsOf(input.fields)))
  {
    match input
    case NotStruct(_) => Panic("no data in struct")
    case Struct(_, fields) =>
      var loop := FieldLoop(Acc([], false, true), fields);
      if loop.Panic? then Panic(loop.reason)
      else if !loop.value.hasProgramId then Panic("program_id field missing")
      else
        var acc := loop.value;
        var us := acc.uniforms;
        assert us == UniformsOf(fields);
        Ok(Expansion(Generated("set_", us), acc.onlyShader, if acc.onlyShader then FieldNames(us) else [],
                     Generated("setup_", us), Generated("setup_", us)))
  }

  /** A field `uniform_<tag>_<name>: i32` with an underscore-free tag
      panics exactly when the name is no identifier or the tag is unknown;
      otherwise it adds the uniform with that tag and name. */
  lemma UniformField(acc: Acc, tag: string, name: string)
    requires '_' !in tag
    ensures var f := Field(PathTy(["i32"]), Some("uniform_" + tag + "_" + name));
      && (FieldStep(acc, f).Ok? <==> IdentName(name) && ParseUniformType(tag).Some?)
      && (FieldStep(acc, f).Ok? ==>
            FieldStep(acc, f).value.uniforms
              == acc.uniforms + [Uniform("uniform_" + tag + "_" + name, ParseUniformType(tag).value, name)])
  {
    var parts := ["uniform", tag, name];
    assert Join(parts[2..], '_') == name;
    assert Join(parts[1..], '_') == tag + "_" + name;
    assert Join(parts, '_') == "uniform_" + tag + "_" + name;
    SplitNJoin(parts, '_');
  }

  /** `uniform_f_` and `uniform_f_2` are legal field names whose uniform
      names `format_ident!` rejects. */
  lemma NoIdentPanics(acc: Acc)
    ensures FieldStep(acc, Field(PathTy(["i32"]), Some("uniform_f_"))).Panic?
    ensures FieldStep(acc, Field(PathTy(["i32"]), Some("uniform_f_2"))).Panic?
  {
    NamedField(acc, "");
    assert "uniform_f_" + "" == "uniform_f_";
    NamedField(acc, "2");
    assert "uniform_f_" + "2" == "uniform_f_2";
  }

  lemma NamedField(acc: Acc, name: string)
    ensures var f := Field(PathTy(["i32"]), Some("uniform_f_" + name));
      FieldStep(acc, f).Ok? <==> IdentName(name)
  {
    UniformField(acc, "f", name);
    assert "uniform_f_" + name == "uniform_" + "f" + "_" + name;
  }

  /** The third piece keeps its underscores. */
  lemma SplitKeepsTail()
    ensures SplitN("uniform_vec3_light_pos", 3, '_') == ["uniform", "vec3", "light_pos"]
  {
    var parts := ["uniform", "vec3", "light_pos"];
    assert Join(parts[2..], '_') == "light_pos";
    assert Join(parts[1..], '_') == "vec3_light_pos";
    assert Join(parts, '_') == "uniform_vec3_light_pos";
    assert '_' !in parts[0] && '_' !in parts[1];
    SplitNJoin(parts, '_');
  }

  /** A non-`i32` field never becomes a uniform and never blocks `new()`;
      only `program_id: u32` sets the flag. */
  lemma NonI32FieldIgnored(acc: Acc, f: Field)
    requires f.ty.PathTy? && |f.ty.segments| > 0 && f.ty.segments[0] != "i32" && f.ident.Some?
    ensures FieldStep(acc, f).Ok?
    ensures FieldStep(acc, f).value.uniforms == acc.uniforms
    ensures FieldStep(acc, f).value.onlyShader == acc.onlyShader
    ensures FieldStep(acc, f).value.hasProgramId <==> acc.hasProgramId || IsProgramId(f)
  {
  }
}
