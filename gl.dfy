/**
 * The OpenGL driver as the shader layer sees it.
 *
 * The driver is an abstract state: which shader and program objects are
 * live, which shaders are attached to which programs, and the log of
 * uniform uploads. What the driver decides on its own (whether a source
 * compiles, whether a set of shaders links, the diagnostic text, and what
 * reflection reports about a linked program) is fixed by oracles given when
 * the driver is made.
 */
module Gl {
  import opened Wrappers

  /** A GL object name (GLuint); names are handed out by a counter and 0 is never used. */
  type Handle = nat

  type GLint = x: int | -0x8000_0000 <= x < 0x8000_0000

  type GLenum = x: int | 0 <= x < 0x1_0000_0000

  /** A GLfloat is passed through untouched, so it is kept as its IEEE-754 bit pattern. */
  type GLfloat = bv32

  const ZERO: GLenum := 0
  const FLOAT: GLenum := 0x1406
  const FRAGMENT_SHADER: GLenum := 0x8B30
  const VERTEX_SHADER: GLenum := 0x8B31

  const NUL: char := '\0'

  /**
   * The C string a GL entry point reads from a buffer: everything before the
   * first NUL, or the whole buffer when it holds none (a CString keeps a
   * terminator after its bytes).
   */
  function CStrPrefix(s: string): (r: string)
    ensures r <= s
    ensures NUL !in r
    ensures |r| < |s| ==> s[|r|] == NUL
  {
    if s == [] || s[0] == NUL then [] else [s[0]] + CStrPrefix(s[1..])
  }

  /**
   * What a GL query that fills a caller's buffer of `bufSize` characters does
   * (glGetActiveUniform, glGetShaderInfoLog): it writes at most `bufSize - 1`
   * characters of `text` and then a NUL, and leaves the rest of the buffer as
   * it was; with `bufSize == 0` it writes nothing.
   */
  function WriteCString(buf: string, bufSize: nat, text: string): (r: string)
    requires bufSize <= |buf|
    ensures |r| == |buf|
  {
    if bufSize == 0 then buf
    else
      var n := if |text| < bufSize then |text| else bufSize - 1;
      text[..n] + [NUL] + buf[n + 1..]
  }

  lemma {:induction false} CStrPrefixStopsAtNul(a: string, b: string)
    requires NUL !in a
    ensures CStrPrefix(a + [NUL] + b) == a
  {
    if a != [] {
      assert (a + [NUL] + b)[1..] == a[1..] + [NUL] + b;
      CStrPrefixStopsAtNul(a[1..], b);
    }
  }

  /** Reading back a NUL-free text written into a buffer gives the text, cut to `bufSize - 1` characters. */
  lemma ReadBackWritten(buf: string, bufSize: nat, text: string)
    requires 0 < bufSize <= |buf|
    requires NUL !in text
    ensures CStrPrefix(WriteCString(buf, bufSize, text))
            == text[..if |text| < bufSize then |text| else bufSize - 1]
  {
    var n := if |text| < bufSize then |text| else bufSize - 1;
    assert NUL !in text[..n] by {
      forall i | 0 <= i < n ensures text[..n][i] != NUL { assert text[..n][i] == text[i]; }
    }
    CStrPrefixStopsAtNul(text[..n], buf[n + 1..]);
  }

  /** What reflection reports about one active uniform of a linked program. */
  datatype ActiveUniform = ActiveUniform(name: string, size: GLint, typ: GLenum)

  /**
   * What the driver answers about a linked program's uniforms: the count
   * from glGetProgramiv(ACTIVE_UNIFORMS), the uniforms it can describe by
   * index, and glGetUniformLocation for a C-string name.
   */
  datatype Reflection = Reflection(total: GLint, active: seq<ActiveUniform>, locate: string -> GLint)

  /** One recorded glUniform1f call. */
  datatype Upload = Upload(location: GLint, value: GLfloat)

  class Driver {
    var liveShaders: set<Handle>
    var livePrograms: set<Handle>
    /** (program, shader) pairs currently attached. */
    var attached: set<(Handle, Handle)>
    var uploads: seq<Upload>
    /** The next object name the driver hands out. */
    var nextName: Handle

    /** The compiler's verdict for a source and a stage: None when it compiles, else its info log. */
    const compileLog: (string, GLenum) -> Option<string>
    /** The linker's verdict for the shaders attached to a program: None when it links, else its info log. */
    const linkLog: set<Handle> -> Option<string>
    /** Reflection of a linked program's uniforms. */
    const reflect: Handle -> Reflection

    ghost predicate Valid()
      reads this
    {
      && 0 < nextName
      && (forall h :: h in liveShaders ==> 0 < h < nextName)
      && (forall h :: h in livePrograms ==> 0 < h < nextName)
      && (forall a :: a in attached ==> a.0 < nextName)
    }

    constructor (compileLog: (string, GLenum) -> Option<string>,
                 linkLog: set<Handle> -> Option<string>,
                 reflect: Handle -> Reflection)
      ensures Valid()
      ensures liveShaders == {} && livePrograms == {} && attached == {} && uploads == []
      ensures this.compileLog == compileLog && this.linkLog == linkLog && this.reflect == reflect
    {
      liveShaders, livePrograms, attached, uploads := {}, {}, {}, [];
      nextName := 1;
      this.compileLog, this.linkLog, this.reflect := compileLog, linkLog, reflect;
    }

    /** The shaders attached to program `p`. */
    function AttachedTo(p: Handle): set<Handle>
      reads this
    {
      set a | a in attached && a.0 == p :: a.1
    }

    /** glCreateShader: a fresh, live shader name. */
    method CreateShader(kind: GLenum) returns (id: Handle)
      requires Valid()
      modifies this`liveShaders, this`nextName
      ensures Valid()
      ensures id == old(nextName) && 0 < id
      ensures id !in old(liveShaders) && id !in old(livePrograms)
      ensures nextName == id + 1 && liveShaders == old(liveShaders) + {id}
    {
      id := nextName;
      nextName := nextName + 1;
      liveShaders := liveShaders + {id};
    }

    /** glDeleteShader. */
    method DeleteShader(id: Handle)
      requires Valid()
      modifies this`liveShaders
      ensures Valid()
      ensures liveShaders == old(liveShaders) - {id}
    {
      liveShaders := liveShaders - {id};
    }

    /** glCreateProgram: a fresh, live program name with nothing attached. */
    method CreateProgram() returns (id: Handle)
      requires Valid()
      modifies this`livePrograms, this`nextName
      ensures Valid()
      ensures id == old(nextName) && 0 < id
      ensures id !in old(liveShaders) && id !in old(livePrograms) && AttachedTo(id) == {}
      ensures nextName == id + 1 && livePrograms == old(livePrograms) + {id}
    {
      id := nextName;
      nextName := nextName + 1;
      livePrograms := livePrograms + {id};
    }

    /** glDeleteProgram. */
    method DeleteProgram(id: Handle)
      requires Valid()
      modifies this`livePrograms
      ensures Valid()
      ensures livePrograms == old(livePrograms) - {id}
    {
      livePrograms := livePrograms - {id};
    }

    /** glAttachShader. */
    method AttachShader(program: Handle, shader: Handle)
      requires Valid() && program < nextName
      modifies this`attached
      ensures Valid()
      ensures attached == old(attached) + {(program, shader)}
    {
      attached := attached + {(program, shader)};
    }

    /** glDetachShader. */
    method DetachShader(program: Handle, shader: Handle)
      requires Valid()
      modifies this`attached
      ensures Valid()
      ensures attached == old(attached) - {(program, shader)}
    {
      attached := attached - {(program, shader)};
    }

    /** glLinkProgram followed by the LINK_STATUS query and, on failure, the info log. */
    function LinkProgram(program: Handle): Option<string>
      reads this
    {
      linkLog(AttachedTo(program))
    }

    /** glGetProgramiv(ACTIVE_UNIFORMS): the number of active uniforms reflection reports. */
    function ActiveUniforms(program: Handle): GLint
      reads this
    {
      reflect(program).total
    }

    /**
     * glGetActiveUniform(program, index, bufSize, ..., name): for an index the
     * driver can describe, write its name into the buffer and report its
     * type; for any other index it fails and leaves both outputs as they were.
     */
    method GetActiveUniform(program: Handle, index: nat, bufSize: nat, name: string, typ: GLenum)
      returns (name': string, typ': GLenum)
      requires bufSize <= |name|
      ensures |name'| == |name|
      ensures index < |reflect(program).active| ==>
        name' == WriteCString(name, bufSize, reflect(program).active[index].name)
        && typ' == reflect(program).active[index].typ
      ensures |reflect(program).active| <= index ==> name' == name && typ' == typ
    {
      var active := reflect(program).active;
      if index < |active| {
        name', typ' := WriteCString(name, bufSize, active[index].name), active[index].typ;
      } else {
        name', typ' := name, typ;
      }
    }

    /** glGetUniformLocation: resolved from the C string the buffer holds. */
    function GetUniformLocation(program: Handle, name: string): GLint
      reads this
    {
      reflect(program).locate(CStrPrefix(name))
    }

    /** glUniform1f. */
    method Uniform1f(location: GLint, value: GLfloat)
      modifies this`uploads
      ensures uploads == old(uploads) + [Upload(location, value)]
    {
      uploads := uploads + [Upload(location, value)];
    }
  }
}
