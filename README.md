# Shader and program lifecycle, modelled in Dafny

This project models the shader/program layer of a small Rust OpenGL renderer
(`src/render_gl/shader.rs`): how a shader's stage is inferred from its
resource name, how a program derives the names of its two shader resources,
which failure wins and how it is wrapped, the attach/link/detach protocol,
the uniform table reflected after linking, the type-checked `set_uniform1f`,
and the release of GL handles when a `Shader` or `Program` is dropped.

The OpenGL driver is an abstract state, the class `Gl.Driver`: the set of live
shader names, the set of live program names, the set of (program, shader)
attachments, and a log of `glUniform1f` uploads. Names come from a counter,
so a new object's name is always fresh. What the driver decides by itself is
an oracle fixed when the driver is made:
- whether a source compiles for a stage, and the info log if it does not;
- whether the attached shaders link, and the info log if they do not;
- what reflection reports for a program: the active-uniform count, the name
  and type for each index it can describe, and the location for a name.

The resource loader is likewise an oracle (`Resources.Loader`), with a ghost
log of the names it was asked for.

Files:
- `wrappers.dfy`: Option and Result.
- `gl.dfy`: GL types and constants, the driver state and the GL calls the
  layer makes, and how a GL query writes a C string into a caller's buffer.
- `resources.dfy`: the loader oracle.
- `shaders.dfy`: the `Error` enum, `Shader`, stage inference,
  `shader_from_source`, `Shader::from_source`/`from_vert_source`/
  `from_frag_source`/`from_res`, `create_whitespace_cstring_with_len`, and
  `Drop for Shader`.
- `programs.dfy`: `Program`, `Program::from_res`, `Program::from_shaders`,
  `get_uniforms` and the lemmas about the table it builds, `set_uniform1f`,
  and `Drop for Program`.

Behaviour of the code that the model keeps, where a description of the
design says otherwise:
- A type mismatch in `set_uniform1f` builds an error and drops it. The call
  returns `Ok(())` and uploads nothing.
- A failed compile or link returns without deleting the object it just
  created. No `Shader` or `Program` exists to drop it, so the handle stays live.
- A uniform-table key is not the declared name. The code allocates 256 spaces,
  lets `glGetActiveUniform` write the name and a NUL into them, and converts the
  whole buffer. So the key is the name, a NUL, then spaces padding it to 256
  characters. `Programs.KeysAreWholeBuffers` proves that every key is 256
  characters long, so looking up a declared name of any other length panics.
  The location is still found by the bare name, because the driver reads the
  buffer only up to the NUL.
- Colliding keys are not excluded. A later index overwrites an earlier one.
- `Program::from_res` drops its two shaders before it returns, so their
  handles are deleted on every path. If the fragment shader fails, the vertex
  shader built before it is dropped as well.

## Model

| member | source | states |
|---|---|---|
| `Shaders.FindKindFirstMatch` | src/render_gl/shader.rs:178-183 | the suffix table is searched in order: the result is the stage of the first entry whose suffix ends the name, and None exactly when no entry matches |
| `Shaders.StageInference` | src/render_gl/shader.rs:173-183 | a name ending in `.vert` is VERTEX_SHADER, one ending in `.frag` (and not `.vert`) is FRAGMENT_SHADER, any other name has no stage |
| `Shaders.CreateWhitespaceCString` | src/render_gl/shader.rs:261-268 | the buffer has exactly `len` characters and every one is a space |
| `Shaders.ShaderFromSource` | src/render_gl/shader.rs:222-259 | a fresh shader name is created and stays live on both paths; a compile failure returns the driver's log unchanged, success returns the new name |
| `Shaders.FromSource` | src/render_gl/shader.rs:192-199 | wraps the new name in a Shader on success and passes the compile log through on failure |
| `Shaders.FromVertSource` | src/render_gl/shader.rs:201-203 | compiles for VERTEX_SHADER, with the same outcome as `FromSource` |
| `Shaders.FromFragSource` | src/render_gl/shader.rs:205-207 | compiles for FRAGMENT_SHADER, with the same outcome as `FromSource` |
| `Shaders.FromRes` | src/render_gl/shader.rs:172-190 | errors take precedence in the order stage, load, compile. An unknown suffix yields `CanNotDetermineShaderTypeForResource(name)` and neither loads nor creates a GL object. A load failure yields `ResourceLoad(name, inner)` and creates nothing. A compile failure yields `CompileError(name, log)` and leaves its new object live |
| `Shaders.DropShader` | src/render_gl/shader.rs:214-220 | exactly the shader's own name leaves the live set; every other part of the driver state is unchanged (frame) |
| `Programs.ResourceNames` | src/render_gl/shader.rs:32-39 | the derived names are exactly `[name + ".vert", name + ".frag"]`, in that order |
| `Programs.DerivedNamesHaveStages` | src/render_gl/shader.rs:37-45 | the first derived name infers VERTEX_SHADER and the second FRAGMENT_SHADER, so program loading never fails stage inference |
| `Programs.CollectShaders` | src/render_gl/shader.rs:41-45 | loads and compiles `.vert` before `.frag`. It stops at the first failing shader and returns that error unchanged, after dropping the shader already built. On success it returns the two fresh shaders in order |
| `Programs.FromRes` | src/render_gl/shader.rs:31-49 | returns the first shader error unchanged, and never a stage error. A link failure becomes `LinkError` carrying the base name and the link log. On success the fresh program holds its reflected table. Afterwards both shaders are deleted, and the only handles left behind are a shader whose compile failed or the created program |
| `Programs.AttachAll` | src/render_gl/shader.rs:54-56 | afterwards every supplied shader is attached to the program, and nothing else is added |
| `Programs.DetachAll` | src/render_gl/shader.rs:85-87 | afterwards no supplied shader is attached to the program, and no other attachment changes |
| `Programs.FromShaders` | src/render_gl/shader.rs:51-91 | a fresh program is created and stays live on both paths. It links exactly the supplied shaders. A link failure returns the log with the shaders still attached. On success the attachments are as before, nothing is deleted, and the result holds the new name and the reflected table |
| `Gl.Driver.GetActiveUniform` | src/render_gl/shader.rs:119-125 | for an index the driver can describe, the name is written into the buffer and its type reported; otherwise buffer and type are left as they were |
| `Programs.GetUniforms` | src/render_gl/shader.rs:103-137 | the table equals one insert per index `u` in `0 .. total`, in order, of (name buffer after the driver wrote it) to (location, type); with a reported count of zero or less (including the initial -1) it is empty |
| `Programs.ReflectedKeys` | src/render_gl/shader.rs:113-134 | a string is a key exactly when some index below the reported count produced it as its name buffer |
| `Programs.ReflectedLastWins` | src/render_gl/shader.rs:130-134 | when several indices produce the same key, the entry of the last of them is kept |
| `Programs.KeysAreWholeBuffers` | src/render_gl/shader.rs:117-134 | every key is the whole 256-character buffer, so a declared name of any other length is not a key |
| `Gl.ReadBackWritten` | src/render_gl/shader.rs:117-128 | reading back, up to its NUL, a NUL-free text that the driver wrote into a buffer gives the text cut to `bufSize - 1` characters |
| `Programs.NameReadsBack` | src/render_gl/shader.rs:117-128 | a NUL-free name of at most 254 characters reads back intact from its buffer, which is what `glGetUniformLocation` sees |
| `Programs.EntryOfDeclaredName` | src/render_gl/shader.rs:126-133 | the entry for such a name holds the location looked up by the declared name and the declared type |
| `Programs.OneEntryPerUniform` | src/render_gl/shader.rs:113-135 | when the driver reports distinct, NUL-free names of at most 254 characters, the table has exactly one entry per active uniform, with its location and type |
| `Programs.SetUniform1f` | src/render_gl/shader.rs:145-155 | requires the key to be in the table. For a FLOAT entry it records exactly one upload of the value at the cached location; otherwise it records none. Either way it returns `Ok(())` and leaves the table unchanged |
| `Programs.DropProgram` | src/render_gl/shader.rs:158-164 | exactly the program's own name leaves the live set; every other part of the driver state is unchanged (frame) |

## Left out

- Raw GL calls and their pointer and `CStr` mechanics: the driver is an abstract state plus oracles. Info logs are the oracle's text. The `INFO_LOG_LENGTH` query, the log buffer and `to_string_lossy` are not modelled.
- `set_used`, `uniform_loc` and the `id()` accessors: each only forwards to one driver call or reads a field.
- `glUniform1f` targets the currently bound program. The upload log records only location and value, because binding (`set_used`) is not modelled.
- `src/render_gl/vertex_buffer.rs` and `src/render_gl/mod.rs` are not part of this model: they are a float-buffer pass-through and module re-exports.
- The resource loader's own code: it is an oracle that answers source text or an error for each name.
- The `#[fail(display = ...)]` message formats of `Error`: they are display text only.
- GL names are unbounded naturals from a counter. Running out of 32-bit names, and the driver returning 0 from a failed create, are not modelled.
- Byte strings are sequences of characters. The UTF-8 check of `name.to_str().unwrap()` is not modelled, because GLSL identifiers are ASCII.
- GL's deferred deletion is not modelled. In GL a deleted shader that is still attached lives until it is detached, and deleting a program detaches its shaders. Here a delete removes only the object's own name from the live set.
- Errors the driver raises for invalid arguments are not modelled, for example attaching a deleted shader. An attach always records the pair.
- The array-size output of `glGetActiveUniform` is carried in `ActiveUniform.size` but is never read, as in the code.
- Threading and GL-context ownership: the code does not express them.
