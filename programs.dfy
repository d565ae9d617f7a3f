/**
 * Program objects: linking shaders, reflecting the uniform table, the
 * float setter, and releasing the program.
 */
module Programs {
  import opened Wrappers
  import opened Gl
  import opened Resources
  import opened Shaders

  /** One uniform table entry: its location and its declared type. */
  datatype Uniform = Uniform(location: GLint, typ: GLenum)

  /** A linked program and the uniform table built when it was linked. */
  datatype Program = Program(id: Handle, uniforms: map<string, Uniform>)

  /** The extensions `Program::from_res` appends to its base name, in order. */
  const ProgramExtensions: seq<string> := [".vert", ".frag"]

  /** The resource names `Program::from_res` derives from a base name. */
  function ResourceNames(name: string): (r: seq<string>)
    ensures r == [name + ".vert", name + ".frag"]
  {
    seq(|ProgramExtensions|, i requires 0 <= i < |ProgramExtensions| => name + ProgramExtensions[i])
  }

  /** Both derived names have a stage, so `Program::from_res` never fails stage inference. */
  lemma DerivedNamesHaveStages(name: string)
    ensures ShaderKind(ResourceNames(name)[0]) == Some(VERTEX_SHADER)
    ensures ShaderKind(ResourceNames(name)[1]) == Some(FRAGMENT_SHADER)
  {
    var v, f := name + ".vert", name + ".frag";
    assert v[|v| - 5..] == ".vert";
    assert f[|f| - 5..] == ".frag";
    assert f[|f| - 5..] != ".vert" by { assert f[|f| - 5..][1] == 'f'; }
    StageInference(v);
    StageInference(f);
  }

  /** Size of the name buffer `get_uniforms` allocates for each index. */
  const NameBufferLen: nat := 256
  /** The buffer size `get_uniforms` tells glGetActiveUniform it may fill. */
  const NameBufSize: nat := 255

  /** The name buffer for index `u` after glGetActiveUniform has written into it. */
  function NameBuffer(active: seq<ActiveUniform>, u: nat): string {
    if u < |active| then WriteCString(Whitespace(NameBufferLen), NameBufSize, active[u].name)
    else Whitespace(NameBufferLen)
  }

  /** The type reported for index `u`: ZERO, the initial value, when the driver cannot describe it. */
  function TypeAt(active: seq<ActiveUniform>, u: nat): GLenum {
    if u < |active| then active[u].typ else ZERO
  }

  /** The entry `get_uniforms` inserts for index `u`. */
  function EntryAt(refl: Reflection, u: nat): Uniform {
    Uniform(refl.locate(CStrPrefix(NameBuffer(refl.active, u))), TypeAt(refl.active, u))
  }

  /** The table after inserting indices 0 .. n - 1 in order. */
  function Inserted(refl: Reflection, n: nat): map<string, Uniform> {
    if n == 0 then map[]
    else Inserted(refl, n - 1)[NameBuffer(refl.active, n - 1) := EntryAt(refl, n - 1)]
  }

  /** The uniform table of a program whose reflection is `refl`. */
  function ReflectedUniforms(refl: Reflection): map<string, Uniform> {
    if refl.total <= 0 then map[] else Inserted(refl, refl.total as nat)
  }

  /** `Program::get_uniforms`: one insert per index `u` in `0 .. total`. */
  method GetUniforms(gl: Driver, id: Handle) returns (uniforms: map<string, Uniform>)
    ensures uniforms == ReflectedUniforms(gl.reflect(id))
    ensures gl.ActiveUniforms(id) <= 0 ==> uniforms == map[]
  {
    uniforms := map[];
    var total := gl.ActiveUniforms(id);
    var u := 0;
    while u < total
      invariant 0 <= u && (u <= total || u == 0)
      invariant uniforms == Inserted(gl.reflect(id), u)
    {
      var name := CreateWhitespaceCString(NameBufferLen);
      var typ;
      name, typ := gl.GetActiveUniform(id, u, NameBufSize, name, ZERO);
      var location := gl.GetUniformLocation(id, name);
      uniforms := uniforms[name := Uniform(location, typ)];
      u := u + 1;
    }
  }

  lemma {:induction false} InsertedKeys(refl: Reflection, n: nat, k: string)
    ensures k in Inserted(refl, n) <==> exists u :: 0 <= u < n && NameBuffer(refl.active, u) == k
  {
    if n > 0 {
      InsertedKeys(refl, n - 1, k);
    }
  }

  lemma {:induction false} InsertedLastWins(refl: Reflection, n: nat, u: nat)
    requires u < n
    requires forall v :: u < v < n ==> NameBuffer(refl.active, v) != NameBuffer(refl.active, u)
    ensures NameBuffer(refl.active, u) in Inserted(refl, n)
    ensures Inserted(refl, n)[NameBuffer(refl.active, u)] == EntryAt(refl, u)
  {
    if u < n - 1 {
      InsertedLastWins(refl, n - 1, u);
    }
  }

  /** A name is a key exactly when some index below the reported count produced it. */
  lemma ReflectedKeys(refl: Reflection, k: string)
    ensures k in ReflectedUniforms(refl) <==> exists u :: 0 <= u < refl.total && NameBuffer(refl.active, u) == k
  {
    if refl.total > 0 {
      InsertedKeys(refl, refl.total as nat, k);
    }
  }

  /** When a key repeats, the entry of the last index that produced it is the one kept. */
  lemma ReflectedLastWins(refl: Reflection, u: nat)
    requires u < refl.total
    requires forall v :: u < v < refl.total ==> NameBuffer(refl.active, v) != NameBuffer(refl.active, u)
    ensures NameBuffer(refl.active, u) in ReflectedUniforms(refl)
    ensures ReflectedUniforms(refl)[NameBuffer(refl.active, u)] == EntryAt(refl, u)
  {
    InsertedLastWins(refl, refl.total as nat, u);
  }

  /**
   * Every key is a whole 256-character buffer, so a declared uniform name of
   * any other length is never a key: looking it up panics.
   */
  lemma KeysAreWholeBuffers(refl: Reflection, name: string)
    ensures forall k :: k in ReflectedUniforms(refl) ==> |k| == NameBufferLen
    ensures |name| != NameBufferLen ==> name !in ReflectedUniforms(refl)
  {
    forall k | k in ReflectedUniforms(refl) ensures |k| == NameBufferLen {
      ReflectedKeys(refl, k);
    }
  }

  /** A name the driver reports, NUL-free and at most 254 characters, reads back intact from its buffer. */
  lemma NameReadsBack(active: seq<ActiveUniform>, u: nat)
    requires u < |active|
    requires NUL !in active[u].name && |active[u].name| < NameBufSize
    ensures CStrPrefix(NameBuffer(active, u)) == active[u].name
  {
    ReadBackWritten(Whitespace(NameBufferLen), NameBufSize, active[u].name);
  }

  /** The entry for a well-formed name: its location looked up by that name, and its declared type. */
  lemma EntryOfDeclaredName(refl: Reflection, u: nat)
    requires u < |refl.active|
    requires NUL !in refl.active[u].name && |refl.active[u].name| < NameBufSize
    ensures EntryAt(refl, u) == Uniform(refl.locate(refl.active[u].name), refl.active[u].typ)
  {
    NameReadsBack(refl.active, u);
  }

  ghost predicate WellFormedNames(refl: Reflection) {
    && refl.total <= |refl.active|
    && (forall u :: 0 <= u < refl.total ==>
          NUL !in refl.active[u].name && |refl.active[u].name| < NameBufSize)
    && (forall u, v :: 0 <= u < v < refl.total ==> refl.active[u].name != refl.active[v].name)
  }

  lemma {:induction false} InsertedSize(refl: Reflection, n: nat)
    requires WellFormedNames(refl) && n <= refl.total
    ensures |Inserted(refl, n)| == n
  {
    if n > 0 {
      InsertedSize(refl, n - 1);
      var k := NameBuffer(refl.active, n - 1);
      if k in Inserted(refl, n - 1) {
        InsertedKeys(refl, n - 1, k);
        var u :| 0 <= u < n - 1 && NameBuffer(refl.active, u) == k;
        NameReadsBack(refl.active, u);
        NameReadsBack(refl.active, n - 1);
        assert false;
      }
    }
  }

  /**
   * When the driver reports distinct, well-formed names for every index,
   * the table has exactly one entry per active uniform, holding its location
   * and declared type.
   */
  lemma OneEntryPerUniform(refl: Reflection)
    requires 0 <= refl.total && WellFormedNames(refl)
    ensures |ReflectedUniforms(refl)| == refl.total
    ensures forall u :: 0 <= u < refl.total ==>
      NameBuffer(refl.active, u) in ReflectedUniforms(refl)
      && ReflectedUniforms(refl)[NameBuffer(refl.active, u)]
         == Uniform(refl.locate(refl.active[u].name), refl.active[u].typ)
  {
    InsertedSize(refl, refl.total as nat);
    forall u | 0 <= u < refl.total
      ensures NameBuffer(refl.active, u) in ReflectedUniforms(refl)
      ensures ReflectedUniforms(refl)[NameBuffer(refl.active, u)]
              == Uniform(refl.locate(refl.active[u].name), refl.active[u].typ)
    {
      forall v | u < v < refl.total
        ensures NameBuffer(refl.active, v) != NameBuffer(refl.active, u)
      {
        NameReadsBack(refl.active, u);
        NameReadsBack(refl.active, v);
      }
      ReflectedLastWins(refl, u);
      EntryOfDeclaredName(refl, u);
    }
  }

  /** The handles of a list of shaders. */
  function Ids(shaders: seq<Shader>): set<Handle> {
    set i | 0 <= i < |shaders| :: shaders[i].id
  }

  lemma IdsOfPair(a: Shader, b: Shader)
    ensures Ids([a, b]) == {a.id, b.id}
  {
    assert [a, b][0] == a && [a, b][1] == b;
  }

  /** The attachments of every handle in `ids` to `program`. */
  function Pairs(program: Handle, ids: set<Handle>): set<(Handle, Handle)> {
    set h | h in ids :: (program, h)
  }

  /** The first loop of `Program::from_shaders`: attach every shader to `program`. */
  method AttachAll(gl: Driver, program: Handle, shaders: seq<Shader>)
    requires gl.Valid() && program < gl.nextName
    modifies gl`attached
    ensures gl.Valid()
    ensures gl.attached == old(gl.attached) + Pairs(program, Ids(shaders))
  {
    var i := 0;
    while i < |shaders|
      invariant 0 <= i <= |shaders|
      invariant gl.Valid()
      invariant gl.attached == old(gl.attached) + Pairs(program, Ids(shaders[..i]))
    {
      gl.AttachShader(program, shaders[i].id);
      assert Ids(shaders[..i + 1]) == Ids(shaders[..i]) + {shaders[i].id} by {
        assert forall j :: 0 <= j < i ==> shaders[..i + 1][j] == shaders[..i][j];
      }
      i := i + 1;
    }
    assert shaders[..|shaders|] == shaders;
  }

  /** The second loop of `Program::from_shaders`: detach every shader from `program` again. */
  method DetachAll(gl: Driver, program: Handle, shaders: seq<Shader>)
    requires gl.Valid()
    modifies gl`attached
    ensures gl.Valid()
    ensures gl.attached == old(gl.attached) - Pairs(program, Ids(shaders))
  {
    var i := 0;
    while i < |shaders|
      invariant 0 <= i <= |shaders|
      invariant gl.Valid()
      invariant gl.attached == old(gl.attached) - Pairs(program, Ids(shaders[..i]))
    {
      gl.DetachShader(program, shaders[i].id);
      assert Ids(shaders[..i + 1]) == Ids(shaders[..i]) + {shaders[i].id} by {
        assert forall j :: 0 <= j < i ==> shaders[..i + 1][j] == shaders[..i][j];
      }
      i := i + 1;
    }
    assert shaders[..|shaders|] == shaders;
  }

  /** The shaders attached to `program` are exactly `ids` when the only pairs for it are `Pairs(program, ids)`. */
  lemma AttachedToPairs(gl: Driver, before: set<(Handle, Handle)>, program: Handle, ids: set<Handle>)
    requires forall a :: a in before ==> a.0 != program
    requires gl.attached == before + Pairs(program, ids)
    ensures gl.AttachedTo(program) == ids
  {
  }

  /** Taking away the pairs just added to a set that had none for `program` gives the set back. */
  lemma PairsRemoved(before: set<(Handle, Handle)>, program: Handle, ids: set<Handle>)
    requires forall a :: a in before ==> a.0 != program
    ensures before + Pairs(program, ids) - Pairs(program, ids) == before
  {
  }

  /**
   * `Program::from_shaders`: create a program, attach every shader, link.
   * A link failure returns the log with the shaders still attached and the
   * program left live; on success every shader is detached again and the
   * uniform table is reflected.
   */
  method FromShaders(gl: Driver, shaders: seq<Shader>) returns (r: Result<Program, string>)
    requires gl.Valid()
    modifies gl`livePrograms, gl`nextName, gl`attached
    ensures gl.Valid()
    ensures old(gl.nextName) !in old(gl.livePrograms) && old(gl.nextName) !in old(gl.liveShaders)
    ensures gl.nextName == old(gl.nextName) + 1
    ensures gl.livePrograms == old(gl.livePrograms) + {old(gl.nextName)}
    ensures gl.linkLog(Ids(shaders)).Some? ==>
      && r == Err(gl.linkLog(Ids(shaders)).value)
      && gl.attached == old(gl.attached) + Pairs(old(gl.nextName), Ids(shaders))
    ensures gl.linkLog(Ids(shaders)).None? ==>
      && r == Ok(Program(old(gl.nextName), ReflectedUniforms(gl.reflect(old(gl.nextName)))))
      && gl.attached == old(gl.attached)
  {
    var programId := gl.CreateProgram();
    AttachAll(gl, programId, shaders);
    AttachedToPairs(gl, old(gl.attached), programId, Ids(shaders));

    var failure := gl.LinkProgram(programId);
    if failure.Some? {
      return Err(failure.value);
    }

    DetachAll(gl, programId, shaders);
    PairsRemoved(old(gl.attached), programId, Ids(shaders));
    var uniforms := GetUniforms(gl, programId);
    return Ok(Program(programId, uniforms));
  }

  /** What `Shader::from_res` yields for resource `n` with this loader and driver, apart from the handle. */
  function ShaderStep(res: Loader, gl: Driver, n: string): Result<GLenum, Error> {
    ResOutcome(res.answer, gl.compileLog, n)
  }

  /**
   * The `collect::<Result<Vec<Shader>, Error>>()` step of `Program::from_res`:
   * build the shaders for `name.vert` and `name.frag` in that order, stop at
   * the first error, returned unchanged, and drop the shaders built so far.
   */
  method CollectShaders(gl: Driver, res: Loader, name: string) returns (r: Result<seq<Shader>, Error>)
    requires gl.Valid()
    modifies gl`liveShaders, gl`nextName, res`requested
    ensures gl.Valid()
    ensures r.Err? ==> !r.error.CanNotDetermineShaderTypeForResource?
    ensures ShaderStep(res, gl, name + ".vert").Err? ==>
      && r == Err(ShaderStep(res, gl, name + ".vert").error)
      && res.requested == old(res.requested) + [name + ".vert"]
      && gl.liveShaders == old(gl.liveShaders)
           + (if CreatesObject(res.answer, name + ".vert") then {old(gl.nextName)} else {})
    ensures ShaderStep(res, gl, name + ".vert").Ok? && ShaderStep(res, gl, name + ".frag").Err? ==>
      && r == Err(ShaderStep(res, gl, name + ".frag").error)
      && res.requested == old(res.requested) + [name + ".vert", name + ".frag"]
      && gl.liveShaders == old(gl.liveShaders)
           + (if CreatesObject(res.answer, name + ".frag") then {old(gl.nextName) + 1} else {})
    ensures ShaderStep(res, gl, name + ".vert").Ok? && ShaderStep(res, gl, name + ".frag").Ok? ==>
      && r == Ok([Shader(old(gl.nextName)), Shader(old(gl.nextName) + 1)])
      && res.requested == old(res.requested) + [name + ".vert", name + ".frag"]
      && old(gl.nextName) !in old(gl.liveShaders) && old(gl.nextName) + 1 !in old(gl.liveShaders)
      && gl.liveShaders == old(gl.liveShaders) + {old(gl.nextName), old(gl.nextName) + 1}
      && gl.nextName == old(gl.nextName) + 2
  {
    var names := ResourceNames(name);
    DerivedNamesHaveStages(name);
    var vert := Shaders.FromRes(gl, res, names[0]);
    if vert.Err? {
      return Err(vert.error);
    }
    var frag := Shaders.FromRes(gl, res, names[1]);
    if frag.Err? {
      DropShader(gl, vert.value);
      return Err(frag.error);
    }
    return Ok([vert.value, frag.value]);
  }

  /**
   * `Program::from_res`: collect the two shaders, link them, and wrap a link
   * log as LinkError carrying the base name. The shaders are dropped before
   * it returns, so on every path the only handles left behind are a shader
   * that failed to compile and the program it creates (live even when the
   * link fails).
   */
  method FromRes(gl: Driver, res: Loader, name: string) returns (r: Result<Program, Error>)
    requires gl.Valid()
    modifies gl`liveShaders, gl`livePrograms, gl`nextName, gl`attached, res`requested
    ensures gl.Valid()
    ensures r.Err? ==> !r.error.CanNotDetermineShaderTypeForResource?
    ensures ShaderStep(res, gl, name + ".vert").Err? ==>
      && r == Err(ShaderStep(res, gl, name + ".vert").error)
      && res.requested == old(res.requested) + [name + ".vert"]
      && gl.liveShaders == old(gl.liveShaders)
           + (if CreatesObject(res.answer, name + ".vert") then {old(gl.nextName)} else {})
      && gl.livePrograms == old(gl.livePrograms) && gl.attached == old(gl.attached)
    ensures ShaderStep(res, gl, name + ".vert").Ok? && ShaderStep(res, gl, name + ".frag").Err? ==>
      && r == Err(ShaderStep(res, gl, name + ".frag").error)
      && res.requested == old(res.requested) + [name + ".vert", name + ".frag"]
      && gl.liveShaders == old(gl.liveShaders)
           + (if CreatesObject(res.answer, name + ".frag") then {old(gl.nextName) + 1} else {})
      && gl.livePrograms == old(gl.livePrograms) && gl.attached == old(gl.attached)
    ensures ShaderStep(res, gl, name + ".vert").Ok? && ShaderStep(res, gl, name + ".frag").Ok? ==>
      && res.requested == old(res.requested) + [name + ".vert", name + ".frag"]
      && gl.liveShaders == old(gl.liveShaders)
      && gl.livePrograms == old(gl.livePrograms) + {old(gl.nextName) + 2}
    ensures ShaderStep(res, gl, name + ".vert").Ok? && ShaderStep(res, gl, name + ".frag").Ok? ==>
      var linkLog := gl.linkLog({old(gl.nextName), old(gl.nextName) + 1});
      && (linkLog.Some? ==>
            && r == Err(LinkError(name, linkLog.value))
            && gl.attached == old(gl.attached) + Pairs(old(gl.nextName) + 2, {old(gl.nextName), old(gl.nextName) + 1}))
      && (linkLog.None? ==>
            && r == Ok(Program(old(gl.nextName) + 2, ReflectedUniforms(gl.reflect(old(gl.nextName) + 2))))
            && gl.attached == old(gl.attached))
  {
    var shaders := CollectShaders(gl, res, name);
    if shaders.Err? {
      return Err(shaders.error);
    }
    IdsOfPair(shaders.value[0], shaders.value[1]);
    var linked := FromShaders(gl, shaders.value);
    // The vector of shaders is dropped when `from_res` returns.
    DropShader(gl, shaders.value[0]);
    DropShader(gl, shaders.value[1]);
    if linked.Err? {
      return Err(LinkError(name, linked.error));
    }
    return Ok(linked.value);
  }

  /**
   * `Program::set_uniform1f`: the name must be a key of the table (a missing
   * key panics). A FLOAT uniform gets exactly one upload at its cached
   * location; any other type gets none, and the call still answers Ok.
   */
  method SetUniform1f(gl: Driver, program: Program, name: string, value: GLfloat)
    returns (r: Result<(), string>)
    requires name in program.uniforms
    modifies gl`uploads
    ensures r == Ok(())
    ensures program.uniforms[name].typ == FLOAT ==>
      gl.uploads == old(gl.uploads) + [Upload(program.uniforms[name].location, value)]
    ensures program.uniforms[name].typ != FLOAT ==> gl.uploads == old(gl.uploads)
  {
    var uniform := program.uniforms[name];
    if uniform.typ == FLOAT {
      gl.Uniform1f(uniform.location, value);
    } else {
      // The error is built and dropped: it never reaches the caller.
      var discarded: Result<(), string> := Err("This uniform takes a float");
    }
    return Ok(());
  }

  /** `Drop for Program`: delete this program's object and nothing else. */
  method DropProgram(gl: Driver, program: Program)
    requires gl.Valid()
    modifies gl`livePrograms
    ensures gl.Valid()
    ensures gl.livePrograms == old(gl.livePrograms) - {program.id}
  {
    gl.DeleteProgram(program.id);
  }
}
