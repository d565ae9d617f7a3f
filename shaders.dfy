/**
 * Shader objects: the error taxonomy of the shader layer, stage inference
 * from a resource name, compiling source into a GL shader object, and
 * releasing it.
 */
module Shaders {
  import opened Wrappers
  import opened Gl
  import opened Resources

  /** Every failure of loading, stage inference, compiling and linking. */
  datatype Error =
    | ResourceLoad(name: string, inner: ResourceError)
    | CanNotDetermineShaderTypeForResource(name: string)
    | CompileError(name: string, message: string)
    | LinkError(name: string, message: string)

  /** A compiled shader object; its handle is released when the shader is dropped. */
  datatype Shader = Shader(id: Handle)

  /** The suffixes `Shader::from_res` recognises, in the order it tries them. */
  const ShaderExtensions: seq<(string, GLenum)> :=
    [(".vert", VERTEX_SHADER), (".frag", FRAGMENT_SHADER)]

  predicate EndsWith(s: string, suffix: string) {
    |suffix| <= |s| && s[|s| - |suffix|..] == suffix
  }

  /** The stage of the first entry of `table` whose suffix ends `name`. */
  function FindKind(table: seq<(string, GLenum)>, name: string): Option<GLenum> {
    if table == [] then None
    else if EndsWith(name, table[0].0) then Some(table[0].1)
    else FindKind(table[1..], name)
  }

  /** FindKind answers the stage of the first matching entry, and None exactly when no entry matches. */
  lemma {:induction false} FindKindFirstMatch(table: seq<(string, GLenum)>, name: string)
    ensures FindKind(table, name).None? <==> forall i :: 0 <= i < |table| ==> !EndsWith(name, table[i].0)
    ensures FindKind(table, name).Some? ==>
      exists i :: 0 <= i < |table| && EndsWith(name, table[i].0) && FindKind(table, name).value == table[i].1
        && forall j :: 0 <= j < i ==> !EndsWith(name, table[j].0)
  {
    if table != [] && !EndsWith(name, table[0].0) {
      FindKindFirstMatch(table[1..], name);
      assert forall i :: 1 <= i < |table| ==> table[i] == table[1..][i - 1];
      if FindKind(table, name).Some? {
        var i :| 0 <= i < |table[1..]| && EndsWith(name, table[1..][i].0)
          && FindKind(table, name).value == table[1..][i].1
          && forall j :: 0 <= j < i ==> !EndsWith(name, table[1..][j].0);
        assert forall j :: 0 <= j < i + 1 ==> !EndsWith(name, table[j].0);
      }
    }
  }

  function ShaderKind(name: string): Option<GLenum> {
    FindKind(ShaderExtensions, name)
  }

  /** Stage inference: `.vert` is the vertex stage, `.frag` the fragment stage, anything else none. */
  lemma StageInference(name: string)
    ensures EndsWith(name, ".vert") ==> ShaderKind(name) == Some(VERTEX_SHADER)
    ensures !EndsWith(name, ".vert") && EndsWith(name, ".frag") ==> ShaderKind(name) == Some(FRAGMENT_SHADER)
    ensures !EndsWith(name, ".vert") && !EndsWith(name, ".frag") ==> ShaderKind(name) == None
  {
    var r := ShaderKind(name);
    FindKindFirstMatch(ShaderExtensions, name);
    assert ShaderExtensions[0].0 == ".vert" && ShaderExtensions[1].0 == ".frag";
    if r.Some? {
      var i :| 0 <= i < |ShaderExtensions| && EndsWith(name, ShaderExtensions[i].0)
        && r.value == ShaderExtensions[i].1
        && forall j :: 0 <= j < i ==> !EndsWith(name, ShaderExtensions[j].0);
      assert i == 0 || !EndsWith(name, ".vert");
    }
  }

  /** `create_whitespace_cstring_with_len`, as a value: `len` spaces. */
  function Whitespace(len: nat): string {
    seq(len, _ => ' ')
  }

  /** `create_whitespace_cstring_with_len`: a buffer of `len` characters, every one a space. */
  method CreateWhitespaceCString(len: nat) returns (buffer: string)
    ensures |buffer| == len
    ensures forall i :: 0 <= i < len ==> buffer[i] == ' '
    ensures buffer == Whitespace(len)
  {
    buffer := [];
    while |buffer| < len
      invariant |buffer| <= len
      invariant forall i :: 0 <= i < |buffer| ==> buffer[i] == ' '
    {
      buffer := buffer + [' '];
    }
  }

  /**
   * `shader_from_source`: create a shader object, compile `source` into it.
   * On failure the info log is returned and the new object stays live.
   */
  method ShaderFromSource(gl: Driver, source: string, kind: GLenum) returns (r: Result<Handle, string>)
    requires gl.Valid()
    modifies gl`liveShaders, gl`nextName
    ensures gl.Valid()
    ensures old(gl.nextName) !in old(gl.liveShaders)
    ensures gl.nextName == old(gl.nextName) + 1
    ensures gl.liveShaders == old(gl.liveShaders) + {old(gl.nextName)}
    ensures gl.compileLog(source, kind).Some? ==> r == Err(gl.compileLog(source, kind).value)
    ensures gl.compileLog(source, kind).None? ==> r == Ok(old(gl.nextName))
  {
    var id := gl.CreateShader(kind);
    var failure := gl.compileLog(source, kind);
    if failure.Some? {
      return Err(failure.value);
    }
    return Ok(id);
  }

  /** `Shader::from_source`: wrap the compiled object in a Shader. */
  method FromSource(gl: Driver, source: string, kind: GLenum) returns (r: Result<Shader, string>)
    requires gl.Valid()
    modifies gl`liveShaders, gl`nextName
    ensures gl.Valid()
    ensures gl.nextName == old(gl.nextName) + 1
    ensures gl.liveShaders == old(gl.liveShaders) + {old(gl.nextName)}
    ensures gl.compileLog(source, kind).Some? ==> r == Err(gl.compileLog(source, kind).value)
    ensures gl.compileLog(source, kind).None? ==> r == Ok(Shader(old(gl.nextName)))
  {
    var id := ShaderFromSource(gl, source, kind);
    if id.Err? {
      return Err(id.error);
    }
    return Ok(Shader(id.value));
  }

  /** `Shader::from_vert_source`. */
  method FromVertSource(gl: Driver, source: string) returns (r: Result<Shader, string>)
    requires gl.Valid()
    modifies gl`liveShaders, gl`nextName
    ensures gl.Valid()
    ensures gl.liveShaders == old(gl.liveShaders) + {old(gl.nextName)}
    ensures gl.compileLog(source, VERTEX_SHADER).Some? ==> r == Err(gl.compileLog(source, VERTEX_SHADER).value)
    ensures gl.compileLog(source, VERTEX_SHADER).None? ==> r == Ok(Shader(old(gl.nextName)))
  {
    r := FromSource(gl, source, VERTEX_SHADER);
  }

  /** `Shader::from_frag_source`. */
  method FromFragSource(gl: Driver, source: string) returns (r: Result<Shader, string>)
    requires gl.Valid()
    modifies gl`liveShaders, gl`nextName
    ensures gl.Valid()
    ensures gl.liveShaders == old(gl.liveShaders) + {old(gl.nextName)}
    ensures gl.compileLog(source, FRAGMENT_SHADER).Some? ==> r == Err(gl.compileLog(source, FRAGMENT_SHADER).value)
    ensures gl.compileLog(source, FRAGMENT_SHADER).None? ==> r == Ok(Shader(old(gl.nextName)))
  {
    r := FromSource(gl, source, FRAGMENT_SHADER);
  }

  /**
   * The result of `Shader::from_res` for `name`, apart from the handle it
   * allocates: the stage when every step succeeds, else the first error in
   * the order stage inference, loading, compiling.
   */
  function ResOutcome(load: string -> Result<string, ResourceError>,
                      compileLog: (string, GLenum) -> Option<string>,
                      name: string): Result<GLenum, Error>
  {
    match ShaderKind(name)
    case None => Err(CanNotDetermineShaderTypeForResource(name))
    case Some(kind) =>
      match load(name)
      case Err(e) => Err(ResourceLoad(name, e))
      case Ok(source) =>
        match compileLog(source, kind)
        case Some(log) => Err(CompileError(name, log))
        case None => Ok(kind)
  }

  /** Whether `Shader::from_res` gets as far as creating a GL shader object for `name`. */
  predicate CreatesObject(load: string -> Result<string, ResourceError>, name: string) {
    ShaderKind(name).Some? && load(name).Ok?
  }

  /**
   * `Shader::from_res`: infer the stage, then load, then compile. An unknown
   * suffix neither loads nor creates anything; a load failure creates
   * nothing; a compile failure leaves its new object live.
   */
  method FromRes(gl: Driver, res: Loader, name: string) returns (r: Result<Shader, Error>)
    requires gl.Valid()
    modifies gl`liveShaders, gl`nextName, res`requested
    ensures gl.Valid()
    ensures r.Err? <==> ResOutcome(res.answer, gl.compileLog, name).Err?
    ensures r.Err? ==> r.error == ResOutcome(res.answer, gl.compileLog, name).error
    ensures r.Ok? ==> r.value == Shader(old(gl.nextName))
    ensures res.requested == old(res.requested) + (if ShaderKind(name).Some? then [name] else [])
    ensures CreatesObject(res.answer, name) ==>
      && old(gl.nextName) !in old(gl.liveShaders)
      && gl.nextName == old(gl.nextName) + 1
      && gl.liveShaders == old(gl.liveShaders) + {old(gl.nextName)}
    ensures !CreatesObject(res.answer, name) ==>
      gl.nextName == old(gl.nextName) && gl.liveShaders == old(gl.liveShaders)
  {
    var kind := ShaderKind(name);
    if kind.None? {
      return Err(CanNotDetermineShaderTypeForResource(name));
    }
    var source := res.LoadCString(name);
    if source.Err? {
      return Err(ResourceLoad(name, source.error));
    }
    var shader := FromSource(gl, source.value, kind.value);
    if shader.Err? {
      return Err(CompileError(name, shader.error));
    }
    return Ok(shader.value);
  }

  /** `Drop for Shader`: delete this shader's object and nothing else. */
  method DropShader(gl: Driver, shader: Shader)
    requires gl.Valid()
    modifies gl`liveShaders
    ensures gl.Valid()
    ensures gl.liveShaders == old(gl.liveShaders) - {shader.id}
  {
    gl.DeleteShader(shader.id);
  }
}
