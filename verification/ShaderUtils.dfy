/**
 util/shader_utils.cpp over a model of shader and program objects with the deferred deletion of
 section 2.10.3 of the OpenGL ES 2.0 specification.  Compile and link results are inputs.
 */
module ShaderUtils {

  datatype Kind = Vertex | Fragment

  datatype Shader = Shader(kind: Kind, flagged: bool)

  datatype Program = Program(attached: set<nat>, flagged: bool, linked: bool, varyings: seq<string>)

  /** Shaders and programs share one name space; 0 names nothing. */
  datatype Gl = Gl(shaders: map<nat, Shader>, programs: map<nat, Program>, current: nat, next: nat)
  {
    function CreateShader(kind: Kind): Gl {
      this.(shaders := shaders[next := Shader(kind, false)], next := next + 1)
    }

    function CreateProgram(): Gl {
      this.(programs := programs[next := Program({}, false, false, [])], next := next + 1)
    }

    predicate Attached(s: nat) {
      exists p | p in programs :: s in programs[p].attached
    }

    /** A shader attached to some program is only flagged. */
    function DeleteShader(s: nat): Gl {
      if s !in shaders then this
      else if Attached(s) then this.(shaders := shaders[s := shaders[s].(flagged := true)])
      else this.(shaders := shaders - {s})
    }

    function AttachShader(p: nat, s: nat): Gl {
      if p in programs && s in shaders
      then this.(programs := programs[p := programs[p].(attached := programs[p].attached + {s})])
      else this
    }

    /** Program p goes, and so do the flagged shaders that it alone held. */
    function Remove(p: nat): Gl
      requires p in programs
    {
      var rest := this.(programs := programs - {p});
      rest.(shaders := map s | s in shaders
                             && (!shaders[s].flagged || s !in programs[p].attached || rest.Attached(s)) :: shaders[s])
    }

    /** The current program is only flagged. */
    function DeleteProgram(p: nat): Gl {
      if p !in programs then this
      else if p == current then this.(programs := programs[p := programs[p].(flagged := true)])
      else Remove(p)
    }

    /** An unknown or unlinked program is an error and changes nothing; a flagged program goes when it is left. */
    function UseProgram(p: nat): Gl {
      if p != 0 && (p !in programs || !programs[p].linked) then this
      else if p != current && current in programs && programs[current].flagged
      then this.(current := p).Remove(current)
      else this.(current := p)
    }

    function SetVaryings(p: nat, names: seq<string>): Gl {
      if p in programs then this.(programs := programs[p := programs[p].(varyings := names)]) else this
    }

    function LinkProgram(p: nat, linked: bool): Gl {
      if p in programs then this.(programs := programs[p := programs[p].(linked := linked)]) else this
    }

    /** Names in use are below `next`, and only existing shaders are attached. */
    ghost predicate Valid() {
      && 0 < next && (current == 0 || current in programs)
      && (forall s :: s in shaders ==> 0 < s < next)
      && (forall p :: p in programs ==> 0 < p < next)
      && (forall p :: p in programs ==> programs[p].attached <= shaders.Keys)
    }

    /** The same objects with the same state; only the supply of names may have moved on. */
    ghost predicate SameObjects(g: Gl) {
      shaders == g.shaders && programs == g.programs && current == g.current
    }
  }

  /** What the driver answers. */
  datatype Answers = Answers(vertexCompiles: bool, fragmentCompiles: bool, errorPending: bool, links: bool)

  class Context {
    var gl: Gl

    constructor (g: Gl)
      ensures gl == g
    {
      gl := g;
    }
  }

  // ----- what the functions do to the objects

  function AfterCompileShader(g: Gl, kind: Kind, compiles: bool): (Gl, nat) {
    var g1 := g.CreateShader(kind);
    if compiles then (g1, g.next) else (g1.DeleteShader(g.next), 0)
  }

  /** A pending error leaves the function early, with the program still there. */
  function AfterCheckLink(g: Gl, program: nat, errorPending: bool): (Gl, nat) {
    if errorPending then (g, 0)
    else if program in g.programs && g.programs[program].linked then (g, program)
    else (g.DeleteProgram(program), 0)
  }

  /** Each shader is attached and then deleted. */
  function AttachBoth(g: Gl, program: nat, vs: nat, fs: nat): Gl {
    g.AttachShader(program, vs).DeleteShader(vs).AttachShader(program, fs).DeleteShader(fs)
  }

  function AfterCompileProgram(g: Gl, varyings: seq<string>, a: Answers): (Gl, nat) {
    var program := g.next;
    var (g1, vs) := AfterCompileShader(g.CreateProgram(), Vertex, a.vertexCompiles);
    var (g2, fs) := AfterCompileShader(g1, Fragment, a.fragmentCompiles);
    if vs == 0 || fs == 0 then (g2.DeleteShader(fs).DeleteShader(vs).DeleteProgram(program), 0)
    else
      var g3 := AttachBoth(g2, program, vs, fs);
      var g4 := if varyings != [] then g3.SetVaryings(program, varyings) else g3;
      AfterCheckLink(g4.LinkProgram(program, a.links), program, a.errorPending)
  }

  // ----- conservation

  /** Both shaders flagged and held by the new program alone. */
  ghost predicate Built(g: Gl, h: Gl, program: nat, linked: bool, varyings: seq<string>) {
    var vs, fs := program + 1, program + 2;
    && program == g.next
    && h.programs == g.programs[program := Program({vs, fs}, false, linked, varyings)]
    && h.shaders == g.shaders[vs := Shader(Vertex, true)][fs := Shader(Fragment, true)]
    && h.current == g.current && h.next == g.next + 3
  }

  /** A shader deleted once it is attached stays, flagged. */
  lemma AttachThenDelete(g: Gl, p: nat, s: nat)
    requires p in g.programs && s in g.shaders
    ensures g.AttachShader(p, s).DeleteShader(s)
         == g.(programs := g.programs[p := g.programs[p].(attached := g.programs[p].attached + {s})],
               shaders := g.shaders[s := g.shaders[s].(flagged := true)])
  {
    assert s in g.AttachShader(p, s).programs[p].attached;
  }

  lemma BothFlagged(g: Gl, p: nat, vs: nat, fs: nat)
    requires p in g.programs && vs in g.shaders && fs in g.shaders && vs != fs
    ensures AttachBoth(g, p, vs, fs)
         == g.(programs := g.programs[p := g.programs[p].(attached := g.programs[p].attached + {vs} + {fs})],
               shaders := g.shaders[vs := g.shaders[vs].(flagged := true)][fs := g.shaders[fs].(flagged := true)])
  {
    hide Gl.Attached, Gl.DeleteShader, Gl.AttachShader;
    AttachThenDelete(g, p, vs);
    var g1 := g.AttachShader(p, vs).DeleteShader(vs);
    AttachThenDelete(g1, p, fs);
    var attached := g.programs[p].attached;
    assert g1.programs[p := g1.programs[p].(attached := attached + {vs} + {fs})]
        == g.programs[p := g.programs[p].(attached := attached + {vs} + {fs})];
  }

  lemma BuiltByCompile(g: Gl, varyings: seq<string>, a: Answers)
    requires g.Valid() && a.vertexCompiles && a.fragmentCompiles
    ensures var h := AfterCompileProgram(g, varyings, a.(errorPending := true)).0;
      Built(g, h, g.next, a.links, varyings)
  {
    hide AttachBoth, Gl.Attached, Gl.DeleteShader, Gl.AttachShader, Gl.Remove;
    var p, vs, fs := g.next, g.next + 1, g.next + 2;
    var g2 := g.CreateProgram().CreateShader(Vertex).CreateShader(Fragment);
    BothFlagged(g2, p, vs, fs);
    var g3 := AttachBoth(g2, p, vs, fs);
    assert {} + {vs} + {fs} == {vs, fs};
    assert g3.programs == g.programs[p := Program({vs, fs}, false, false, [])];
    assert g3.shaders == g.shaders[vs := Shader(Vertex, true)][fs := Shader(Fragment, true)];
  }

  lemma DeleteBuilt(g: Gl, h: Gl, program: nat, linked: bool, varyings: seq<string>)
    requires g.Valid() && Built(g, h, program, linked, varyings)
    ensures h.DeleteProgram(program).SameObjects(g)
  {
    var rest := h.(programs := h.programs - {program});
    assert rest.programs == g.programs;
    assert !rest.Attached(program + 1) && !rest.Attached(program + 2);
    assert h.DeleteProgram(program).shaders == g.shaders;
  }

  /** When a shader does not compile, every object made on the way is gone again. */
  lemma FailedCompileRestores(g: Gl, varyings: seq<string>, a: Answers)
    requires g.Valid() && !(a.vertexCompiles && a.fragmentCompiles)
    ensures var (h, r) := AfterCompileProgram(g, varyings, a);
      r == 0 && h.SameObjects(g) && h.next >= g.next
  {
    var p := g.next;
    var (g1, vs) := AfterCompileShader(g.CreateProgram(), Vertex, a.vertexCompiles);
    CompileShaderEffect(g, g.CreateProgram(), Vertex, a.vertexCompiles);
    var (g2, fs) := AfterCompileShader(g1, Fragment, a.fragmentCompiles);
    CompileShaderEffect(g, g1, Fragment, a.fragmentCompiles);
    var g3 := g2.DeleteShader(fs).DeleteShader(vs);
    assert g3.shaders == g.shaders && g3.programs == g.CreateProgram().programs;
    assert g3.programs[p].attached == {};
    var rest := g3.(programs := g3.programs - {p});
    assert rest.programs == g.programs;
    assert g3.DeleteProgram(p).shaders == g.shaders;
  }

  /** Only the fresh, unattached shader is added, if it compiles. */
  lemma CompileShaderEffect(g: Gl, g1: Gl, kind: Kind, compiles: bool)
    requires g.Valid() && g1.programs == g.CreateProgram().programs && g1.current == g.current && g1.next > g.next
    requires g1.next !in g1.shaders
    ensures var (h, s) := AfterCompileShader(g1, kind, compiles);
      && h.programs == g1.programs && h.current == g1.current && h.next == g1.next + 1 && !h.Attached(g1.next)
      && (compiles ==> s == g1.next && h.shaders == g1.shaders[s := Shader(kind, false)])
      && (!compiles ==> s == 0 && h.shaders == g1.shaders)
  {
    var h := g1.CreateShader(kind);
    assert !h.Attached(g1.next);
    assert (h.shaders - {g1.next}) == g1.shaders;
  }

  /**
   A zero result restores the objects exactly, except in one case: both shaders compile and an
   error is pending at the link check.  Then the program and both shaders stay behind.
   */
  lemma ZeroResultRestoresIff(g: Gl, varyings: seq<string>, a: Answers)
    requires g.Valid() && AfterCompileProgram(g, varyings, a).1 == 0
    ensures AfterCompileProgram(g, varyings, a).0.next >= g.next
    ensures AfterCompileProgram(g, varyings, a).0.SameObjects(g)
       <==> !(a.vertexCompiles && a.fragmentCompiles && a.errorPending)
  {
    if !(a.vertexCompiles && a.fragmentCompiles) {
      FailedCompileRestores(g, varyings, a);
    } else {
      BuiltByCompile(g, varyings, a);
      var h := AfterCompileProgram(g, varyings, a.(errorPending := true)).0;
      CheckAfterBuild(g, varyings, a);
      hide AfterCompileProgram;
      if a.errorPending {
        assert g.next in h.programs && g.next !in g.programs;
      } else {
        DeleteBuilt(g, h, g.next, a.links, varyings);
      }
    }
  }

  /** The link check is the last step, whatever came before it. */
  lemma CheckAfterBuild(g: Gl, varyings: seq<string>, a: Answers)
    requires g.Valid() && a.vertexCompiles && a.fragmentCompiles
    ensures AfterCompileProgram(g, varyings, a)
         == AfterCheckLink(AfterCompileProgram(g, varyings, a.(errorPending := true)).0, g.next, a.errorPending)
  {
  }

  /** The program holds exactly a vertex shader and a fragment shader. */
  ghost predicate OneOfEach(h: Gl, program: nat, vs: nat, fs: nat) {
    && program in h.programs && h.programs[program].attached == {vs, fs}
    && vs in h.shaders && h.shaders[vs].kind == Vertex
    && fs in h.shaders && h.shaders[fs].kind == Fragment
  }

  /** A nonzero result is a linked program, and deleting it restores the objects, flagged shaders included. */
  lemma NonzeroThenDeleteRestores(g: Gl, varyings: seq<string>, a: Answers)
    requires g.Valid() && AfterCompileProgram(g, varyings, a).1 != 0
    ensures var (h, r) := AfterCompileProgram(g, varyings, a);
      && r in h.programs && r != h.current && r !in g.programs
      && h.programs[r].linked && h.programs[r].varyings == varyings
      && (exists vs, fs :: OneOfEach(h, r, vs, fs))
      && h.DeleteProgram(r).SameObjects(g)
  {
    if !(a.vertexCompiles && a.fragmentCompiles) {
      FailedCompileRestores(g, varyings, a);
    }
    BuiltByCompile(g, varyings, a);
    var h := AfterCompileProgram(g, varyings, a.(errorPending := true)).0;
    CheckAfterBuild(g, varyings, a);
    hide AfterCompileProgram;
    DeleteBuilt(g, h, g.next, a.links, varyings);
    assert OneOfEach(h, g.next, g.next + 1, g.next + 2);
  }

  /** A program is returned exactly when both shaders compile, it links, and no error is pending. */
  lemma NonzeroIff(g: Gl, varyings: seq<string>, a: Answers)
    requires g.Valid()
    ensures AfterCompileProgram(g, varyings, a).1 != 0
       <==> a.vertexCompiles && a.fragmentCompiles && a.links && !a.errorPending
  {
    if a.vertexCompiles && a.fragmentCompiles {
      BuiltByCompile(g, varyings, a);
      CheckAfterBuild(g, varyings, a);
      hide AfterCompileProgram;
    } else {
      FailedCompileRestores(g, varyings, a);
    }
  }

  const NOTHING := Gl(map[], map[], 0, 1)

  /** With no objects and an error pending, a program and two shaders are left although the result is zero. */
  lemma PendingErrorLeaks()
    ensures NOTHING.Valid()
    ensures var (h, r) := AfterCompileProgram(NOTHING, [], Answers(true, true, true, true));
      r == 0 && h.programs.Keys == {1} && h.shaders.Keys == {2, 3}
  {
    BuiltByCompile(NOTHING, [], Answers(true, true, true, true));
  }

  /** A shader that does not compile leaves no object; one that does can be deleted again without trace. */
  lemma CompileShaderRestores(g: Gl, kind: Kind, compiles: bool)
    requires g.Valid()
    ensures var (h, s) := AfterCompileShader(g, kind, compiles);
      && (s == 0 <==> !compiles)
      && (compiles ==> s !in g.shaders && s in h.shaders && h.shaders[s] == Shader(kind, false))
      && h.DeleteShader(s).SameObjects(g)
      && (!compiles ==> h.SameObjects(g))
  {
    var h := g.CreateShader(kind);
    assert !h.Attached(g.next);
    assert h.shaders - {g.next} == g.shaders;
    assert 0 !in g.shaders;
  }

  lemma CompileProgramRestores(g: Gl, varyings: seq<string>, a: Answers)
    requires g.Valid()
    ensures var (h, r) := AfterCompileProgram(g, varyings, a);
      && (r != 0 <==> a.vertexCompiles && a.fragmentCompiles && a.links && !a.errorPending)
      && (r == 0 ==> (h.SameObjects(g) <==> !(a.vertexCompiles && a.fragmentCompiles && a.errorPending)))
      && (r != 0 ==>
            && r !in g.programs && r in h.programs && h.programs[r].linked && h.programs[r].varyings == varyings
            && (exists vs, fs :: OneOfEach(h, r, vs, fs))
            && h.DeleteProgram(r).SameObjects(g))
  {
    hide AfterCompileProgram;
    NonzeroIff(g, varyings, a);
    if AfterCompileProgram(g, varyings, a).1 == 0 {
      ZeroResultRestoresIff(g, varyings, a);
    } else {
      NonzeroThenDeleteRestores(g, varyings, a);
    }
  }

  // ----- the functions themselves

  method CompileShader(c: Context, kind: Kind, compiles: bool) returns (shader: nat)
    modifies c
    ensures (c.gl, shader) == AfterCompileShader(old(c.gl), kind, compiles)
    ensures old(c.gl).Valid() ==> (shader == 0 <==> !compiles) && c.gl.DeleteShader(shader).SameObjects(old(c.gl))
    ensures old(c.gl).Valid() && compiles ==>
              shader !in old(c.gl.shaders) && shader in c.gl.shaders && c.gl.shaders[shader] == Shader(kind, false)
  {
    if c.gl.Valid() {
      CompileShaderRestores(c.gl, kind, compiles);
    }
    shader := c.gl.next;
    c.gl := c.gl.CreateShader(kind);
    if !compiles {
      c.gl := c.gl.DeleteShader(shader);
      shader := 0;
    }
  }

  method CheckLinkStatusAndReturnProgram(c: Context, program: nat, errorPending: bool) returns (r: nat)
    modifies c
    ensures (c.gl, r) == AfterCheckLink(old(c.gl), program, errorPending)
    ensures r != 0 ==> r == program && program in c.gl.programs && c.gl.programs[program].linked
    ensures old(c.gl).Valid() ==>
              (r != 0 <==> !errorPending && program in old(c.gl.programs) && old(c.gl).programs[program].linked)
    ensures r != 0 || errorPending ==> c.gl == old(c.gl)
    ensures r == 0 && !errorPending && program != 0 ==> program !in c.gl.programs || c.gl.programs[program].flagged
  {
    if errorPending {
      return 0;
    }
    var linkStatus := program in c.gl.programs && c.gl.programs[program].linked;
    if !linkStatus {
      c.gl := c.gl.DeleteProgram(program);
      return 0;
    }
    return program;
  }

  method CompileProgramWithTransformFeedback(c: Context, varyings: seq<string>, a: Answers) returns (r: nat)
    modifies c
    ensures (c.gl, r) == AfterCompileProgram(old(c.gl), varyings, a)
    ensures old(c.gl).Valid() ==> (r != 0 <==> a.vertexCompiles && a.fragmentCompiles && a.links && !a.errorPending)
    ensures old(c.gl).Valid() && r == 0 ==>
              (c.gl.SameObjects(old(c.gl)) <==> !(a.vertexCompiles && a.fragmentCompiles && a.errorPending))
    ensures old(c.gl).Valid() && r != 0 ==>
              && r !in old(c.gl.programs) && r in c.gl.programs
              && c.gl.programs[r].linked && c.gl.programs[r].varyings == varyings
              && (exists vs, fs :: OneOfEach(c.gl, r, vs, fs))
              && c.gl.DeleteProgram(r).SameObjects(old(c.gl))
  {
    if c.gl.Valid() {
      CompileProgramRestores(c.gl, varyings, a);
    }
    var program := c.gl.next;
    c.gl := c.gl.CreateProgram();
    var vs := CompileShader(c, Vertex, a.vertexCompiles);
    var fs := CompileShader(c, Fragment, a.fragmentCompiles);
    if vs == 0 || fs == 0 {
      c.gl := c.gl.DeleteShader(fs);
      c.gl := c.gl.DeleteShader(vs);
      c.gl := c.gl.DeleteProgram(program);
      return 0;
    }
    c.gl := c.gl.AttachShader(program, vs);
    c.gl := c.gl.DeleteShader(vs);
    c.gl := c.gl.AttachShader(program, fs);
    c.gl := c.gl.DeleteShader(fs);
    if |varyings| > 0 {
      var names: seq<string> := [];
      for i := 0 to |varyings|
        invariant names == varyings[..i]
      {
        names := names + [varyings[i]];
      }
      assert names == varyings;
      c.gl := c.gl.SetVaryings(program, names);
    }
    c.gl := c.gl.LinkProgram(program, a.links);
    r := CheckLinkStatusAndReturnProgram(c, program, a.errorPending);
  }
}
