/**
 Whole sessions of compiling, using and deleting programs: what was made goes away again.
 */
module ShaderSessions {
  import opened ShaderUtils

  ghost predicate OwnedNames(g: Gl, h: Gl, live: set<nat>, owner: map<nat, nat>) {
    && g.next <= h.next
    && (forall p :: p in live ==> g.next <= p < h.next)
    && (forall s :: s in owner ==> g.next <= s < h.next && owner[s] in live)
  }

  ghost predicate OwnedPrograms(g: Gl, h: Gl, live: set<nat>, owner: map<nat, nat>) {
    && h.programs.Keys == g.programs.Keys + live
    && (h.current == 0 || h.current in h.programs)
    && (forall p :: p in g.programs ==> h.programs[p] == g.programs[p])
    && (forall p, s :: p in live ==> (s in h.programs[p].attached <==> s in owner && owner[s] == p))
  }

  ghost predicate OwnedShaders(g: Gl, h: Gl, owner: map<nat, nat>) {
    && h.shaders.Keys == g.shaders.Keys + owner.Keys
    && (forall s :: s in g.shaders ==> h.shaders[s] == g.shaders[s])
    && (forall s :: s in owner ==> h.shaders[s].flagged)
  }

  /** h is g with the programs `live` added; every added shader is flagged and held by its owner alone. */
  ghost predicate Owned(g: Gl, h: Gl, live: set<nat>, owner: map<nat, nat>) {
    OwnedNames(g, h, live, owner) && OwnedPrograms(g, h, live, owner) && OwnedShaders(g, h, owner)
  }

  /** No program waits for being left before it goes. */
  ghost predicate Settled(g: Gl) {
    forall p :: p in g.programs ==> !g.programs[p].flagged
  }

  /** Of the added programs those still named by the caller are not flagged; a flagged one is current. */
  ghost predicate Named(h: Gl, live: set<nat>, names: set<nat>) {
    && names <= live
    && (forall p :: p in live && p in h.programs ==> (h.programs[p].flagged <==> p !in names))
    && (forall p :: p in live && p !in names ==> p == h.current)
  }

  /** h is g with some programs added that this session made; the caller still has `names`. */
  ghost predicate Extends(g: Gl, h: Gl, names: set<nat>) {
    g.Valid() && Settled(g) && exists live, owner :: Owned(g, h, live, owner) && Named(h, live, names)
  }

  lemma OwnedValid(g: Gl, h: Gl, live: set<nat>, owner: map<nat, nat>)
    requires g.Valid() && Owned(g, h, live, owner)
    ensures h.Valid()
  {
    forall p | p in h.programs ensures h.programs[p].attached <= h.shaders.Keys {
      if p in live {
        forall s | s in h.programs[p].attached ensures s in h.shaders.Keys {
        }
      }
    }
  }

  lemma BuiltOwned(g: Gl, h: Gl, live: set<nat>, owner: map<nat, nat>, h': Gl, linked: bool, varyings: seq<string>)
    requires g.Valid() && Owned(g, h, live, owner) && Built(h, h', h.next, linked, varyings)
    ensures Owned(g, h', live + {h.next}, owner[h.next + 1 := h.next][h.next + 2 := h.next])
  {
    var r := h.next;
    var owner' := owner[r + 1 := r][r + 2 := r];
    FreshNames(g, h, live, owner);
    hide OwnedPrograms, OwnedShaders, Gl.Valid;
    NamesOwned(g, h, live, owner, h');
    hide OwnedNames;
    ShadersOwned(g, h, owner, h', r, owner');
    AttachedOwned(g, h, live, owner, h', r, owner');
  }

  lemma FreshNames(g: Gl, h: Gl, live: set<nat>, owner: map<nat, nat>)
    requires g.Valid() && OwnedNames(g, h, live, owner)
    ensures h.next !in live && h.next !in g.programs
    ensures forall s :: s >= h.next ==> s !in owner && s !in g.shaders
    ensures forall s :: s in owner ==> owner[s] in live
  {
  }

  lemma NamesOwned(g: Gl, h: Gl, live: set<nat>, owner: map<nat, nat>, h': Gl)
    requires OwnedNames(g, h, live, owner) && h'.current == h.current && h'.next == h.next + 3
    ensures OwnedNames(g, h', live + {h.next}, owner[h.next + 1 := h.next][h.next + 2 := h.next])
  {
  }

  lemma ShadersOwned(g: Gl, h: Gl, owner: map<nat, nat>, h': Gl, r: nat, owner': map<nat, nat>)
    requires OwnedShaders(g, h, owner) && r + 1 !in g.shaders && r + 2 !in g.shaders
    requires owner' == owner[r + 1 := r][r + 2 := r]
    requires h'.shaders == h.shaders[r + 1 := Shader(Vertex, true)][r + 2 := Shader(Fragment, true)]
    ensures OwnedShaders(g, h', owner')
  {
    assert h'.shaders.Keys == h.shaders.Keys + {r + 1, r + 2} && owner'.Keys == owner.Keys + {r + 1, r + 2};
  }

  lemma AttachedOwned(g: Gl, h: Gl, live: set<nat>, owner: map<nat, nat>, h': Gl, r: nat, owner': map<nat, nat>)
    requires OwnedPrograms(g, h, live, owner) && r !in live && r !in g.programs
    requires r + 1 !in owner && r + 2 !in owner && (forall s :: s in owner ==> owner[s] in live)
    requires owner' == owner[r + 1 := r][r + 2 := r]
    requires r in h'.programs && h'.programs == h.programs[r := h'.programs[r]] && h'.current == h.current
    requires h'.programs[r].attached == {r + 1, r + 2}
    ensures OwnedPrograms(g, h', live + {r}, owner')
  {
    assert h'.programs.Keys == h.programs.Keys + {r};
    forall p, s | p in live + {r} ensures s in h'.programs[p].attached <==> s in owner' && owner'[s] == p {
      if p == r {
        if s in owner' && owner'[s] == r {
          assert s in owner ==> owner[s] in live;
        }
      } else {
        assert h'.programs[p] == h.programs[p];
      }
    }
  }

  /** Both shaders compile and an error is pending at the link check. */
  predicate Leaks(a: Answers) {
    a.vertexCompiles && a.fragmentCompiles && a.errorPending
  }

  /** A compilation returns a program, leaves one behind, or changes nothing. */
  lemma CompileOutcome(g: Gl, varyings: seq<string>, a: Answers)
    requires g.Valid()
    ensures var (h, r) := AfterCompileProgram(g, varyings, a);
      && (Leaks(a) ==> r == 0)
      && (if r != 0 || Leaks(a) then (r == 0 || r == g.next) && Built(g, h, g.next, a.links, varyings)
          else h.SameObjects(g) && h.next >= g.next)
  {
    if !(a.vertexCompiles && a.fragmentCompiles) {
      FailedCompileRestores(g, varyings, a);
    } else {
      BuiltByCompile(g, varyings, a);
      CheckAfterBuild(g, varyings, a);
      if !a.errorPending && AfterCompileProgram(g, varyings, a).1 == 0 {
        ZeroResultRestoresIff(g, varyings, a);
      }
    }
  }

  lemma CompileExtends(g: Gl, h: Gl, names: set<nat>, varyings: seq<string>, a: Answers)
    requires Extends(g, h, names)
    ensures var (h', r) := AfterCompileProgram(h, varyings, a);
      && h.next !in names
      && (r == 0 || r == h.next)
      && Extends(g, h', if r != 0 || Leaks(a) then names + {h.next} else names)
  {
    hide AfterCompileProgram, Owned, Leaks, Gl.Valid;
    var live, owner :| Owned(g, h, live, owner) && Named(h, live, names);
    OwnedValid(g, h, live, owner);
    CompileOutcome(h, varyings, a);
    OwnedBounds(g, h, live, owner);
    var (h', r) := AfterCompileProgram(h, varyings, a);
    if r != 0 || Leaks(a) {
      BuiltOwned(g, h, live, owner, h', a.links, varyings);
      BuiltNamed(h, live, h', a.links, varyings, names);
    } else {
      StillOwned(g, h, live, owner, h');
      assert Named(h', live, names);
    }
  }

  lemma OwnedBounds(g: Gl, h: Gl, live: set<nat>, owner: map<nat, nat>)
    requires g.Valid() && Owned(g, h, live, owner)
    ensures forall p :: p in live ==> p in h.programs && p !in g.programs && p < h.next
    ensures forall p :: p in h.programs ==> p in live || (p in g.programs && h.programs[p] == g.programs[p])
    ensures h.current == 0 || h.current in h.programs
  {
  }

  lemma BuiltNamed(h: Gl, live: set<nat>, h': Gl, linked: bool, varyings: seq<string>, names: set<nat>)
    requires Named(h, live, names) && Built(h, h', h.next, linked, varyings)
    requires forall p :: p in live ==> p in h.programs && p < h.next
    ensures Named(h', live + {h.next}, names + {h.next})
  {
  }

  /** Only the current program, and flags on the added programs, may differ. */
  lemma StillOwned(g: Gl, h: Gl, live: set<nat>, owner: map<nat, nat>, h': Gl)
    requires Owned(g, h, live, owner)
    requires h'.shaders == h.shaders && h'.programs.Keys == h.programs.Keys && h'.next >= h.next
    requires h'.current == 0 || h'.current in h.programs
    requires forall p :: p in h.programs ==> h'.programs[p].attached == h.programs[p].attached
    requires forall p :: p in g.programs && p in h.programs ==> h'.programs[p] == h.programs[p]
    ensures Owned(g, h', live, owner)
  {
  }

  lemma RemoveOwned(g: Gl, h: Gl, live: set<nat>, owner: map<nat, nat>, p: nat)
    requires g.Valid() && Owned(g, h, live, owner) && p in live && p in h.programs && p != h.current
    ensures Owned(g, h.Remove(p), live - {p}, map s | s in owner && owner[s] != p :: owner[s])
  {
    var owner' := map s | s in owner && owner[s] != p :: owner[s];
    var h' := h.Remove(p);
    OwnedBounds(g, h, live, owner);
    assert h'.programs == h.programs - {p} && h'.current == h.current && h'.next == h.next;
    assert OwnedNames(g, h', live - {p}, owner');
    ProgramsLeft(g, h, live, owner, h', p, owner');
    ShadersLeft(g, h, live, owner, p, owner');
    hide OwnedNames, OwnedPrograms, OwnedShaders;
  }

  lemma ProgramsLeft(g: Gl, h: Gl, live: set<nat>, owner: map<nat, nat>, h': Gl, p: nat, owner': map<nat, nat>)
    requires OwnedPrograms(g, h, live, owner) && p in live && p !in g.programs && p != h.current
    requires h'.programs == h.programs - {p} && h'.current == h.current
    requires owner' == map s | s in owner && owner[s] != p :: owner[s]
    ensures OwnedPrograms(g, h', live - {p}, owner')
  {
    assert h'.programs.Keys == h.programs.Keys - {p};
  }

  lemma ShadersLeft(g: Gl, h: Gl, live: set<nat>, owner: map<nat, nat>, p: nat, owner': map<nat, nat>)
    requires g.Valid() && Owned(g, h, live, owner) && p in live && p in h.programs && p != h.current
    requires owner' == map s | s in owner && owner[s] != p :: owner[s]
    ensures OwnedShaders(g, h.Remove(p), owner')
  {
    var rest := h.(programs := h.programs - {p});
    forall s | s in owner && owner[s] == p ensures !rest.Attached(s) {
      OwnerAlone(g, h, live, owner, p, s);
    }
    assert forall s :: s in g.shaders ==> s !in owner;
    assert forall s :: s in h.programs[p].attached <==> s in owner && owner[s] == p;
    hide OwnedNames, OwnedPrograms, Gl.Attached, Gl.Valid;
    ShadersKept(g, h, owner, p, owner');
  }

  lemma ShadersKept(g: Gl, h: Gl, owner: map<nat, nat>, p: nat, owner': map<nat, nat>)
    requires OwnedShaders(g, h, owner) && p in h.programs && p != h.current
    requires owner' == map s | s in owner && owner[s] != p :: owner[s]
    requires forall s :: s in owner && owner[s] == p ==> !h.(programs := h.programs - {p}).Attached(s)
    requires forall s :: s in g.shaders ==> s !in owner
    requires forall s :: s in h.programs[p].attached <==> s in owner && owner[s] == p
    ensures OwnedShaders(g, h.Remove(p), owner')
  {
    hide Gl.Attached;
    var h' := h.Remove(p);
    forall s ensures s in h'.shaders <==> s in g.shaders || s in owner' {
      if s in owner && owner[s] == p {
        assert h.shaders[s].flagged;
      }
    }
  }

  lemma OwnerAlone(g: Gl, h: Gl, live: set<nat>, owner: map<nat, nat>, p: nat, s: nat)
    requires g.Valid() && Owned(g, h, live, owner) && p in live && s in owner && owner[s] == p
    ensures !h.(programs := h.programs - {p}).Attached(s)
  {
    var rest := h.(programs := h.programs - {p});
    hide OwnedShaders;
    forall q | q in rest.programs ensures s !in rest.programs[q].attached {
      if q in g.programs {
        assert g.programs[q].attached <= g.shaders.Keys;
        assert s !in g.shaders;
      }
    }
  }

  /** Deleting a program takes its two shaders along, at once or when the program is left. */
  lemma DeleteExtends(g: Gl, h: Gl, names: set<nat>, p: nat)
    requires Extends(g, h, names) && p in names
    ensures Extends(g, h.DeleteProgram(p), names - {p})
  {
    hide Owned, Gl.Valid, Gl.Attached;
    var live, owner :| Owned(g, h, live, owner) && Named(h, live, names);
    var h' := h.DeleteProgram(p);
    OwnedBounds(g, h, live, owner);
    if p == h.current {
      StillOwned(g, h, live, owner, h');
      assert Named(h', live, names - {p});
    } else {
      RemoveOwned(g, h, live, owner, p);
      assert Named(h', live - {p}, names - {p});
    }
  }

  lemma UseExtends(g: Gl, h: Gl, names: set<nat>, p: nat)
    requires Extends(g, h, names)
    ensures Extends(g, h.UseProgram(p), names)
  {
    hide Owned, Gl.Valid, Gl.Attached;
    var live, owner :| Owned(g, h, live, owner) && Named(h, live, names);
    OwnedBounds(g, h, live, owner);
    var c, h1, h' := h.current, h.(current := p), h.UseProgram(p);
    if h' == h {
    } else if c in h.programs && h.programs[c].flagged {
      StillOwned(g, h, live, owner, h1);
      RemoveOwned(g, h1, live, owner, c);
      assert Named(h', live - {c}, names);
    } else {
      StillOwned(g, h, live, owner, h1);
      assert Named(h', live, names);
    }
  }

  datatype Call = Compile(varyings: seq<string>, answers: Answers) | Delete(program: nat) | Use(program: nat)

  /** `names` have been returned and not yet deleted; `lost` were left behind by a compilation that returned 0. */
  datatype Books = Books(gl: Gl, names: set<nat>, lost: set<nat>)

  function Do(b: Books, c: Call): Books {
    match c
    case Compile(varyings, a) =>
      var (h, r) := AfterCompileProgram(b.gl, varyings, a);
      Books(h, if r == 0 then b.names else b.names + {r}, if Leaks(a) then b.lost + {b.gl.next} else b.lost)
    case Delete(p) => Books(b.gl.DeleteProgram(p), b.names - {p}, b.lost)
    case Use(p) => Books(b.gl.UseProgram(p), b.names, b.lost)
  }

  function Session(b: Books, calls: seq<Call>): Books
    decreases |calls|
  {
    if calls == [] then b else Session(Do(b, calls[0]), calls[1..])
  }

  /** Only programs that were returned, and not deleted since, are deleted. */
  ghost predicate Orderly(b: Books, calls: seq<Call>)
    decreases |calls|
  {
    calls == [] || ((calls[0].Delete? ==> calls[0].program in b.names) && Orderly(Do(b, calls[0]), calls[1..]))
  }

  ghost predicate NoLeak(calls: seq<Call>) {
    forall k :: 0 <= k < |calls| && calls[k].Compile? ==> !Leaks(calls[k].answers)
  }

  ghost predicate Kept(g: Gl, b: Books) {
    b.names !! b.lost && Extends(g, b.gl, b.names + b.lost)
  }

  lemma DoKeeps(g: Gl, b: Books, c: Call)
    requires Kept(g, b) && (c.Delete? ==> c.program in b.names)
    ensures var b' := Do(b, c);
      && Kept(g, b') && b.lost <= b'.lost
      && (b'.lost == b.lost <==> (c.Compile? ==> !Leaks(c.answers)))
  {
    hide Extends, AfterCompileProgram, Leaks;
    var b' := Do(b, c);
    match c
    case Compile(varyings, a) =>
      CompileExtends(g, b.gl, b.names + b.lost, varyings, a);
      CompileReturns(b.gl, varyings, a);
      var r := AfterCompileProgram(b.gl, varyings, a).1;
      if r != 0 || Leaks(a) {
        assert b'.names + b'.lost == b.names + b.lost + {b.gl.next};
      }
    case Delete(p) =>
      DeleteExtends(g, b.gl, b.names + b.lost, p);
      assert b'.names + b'.lost == b.names + b.lost - {p};
    case Use(p) =>
      UseExtends(g, b.gl, b.names + b.lost, p);
  }

  lemma CompileReturns(g: Gl, varyings: seq<string>, a: Answers)
    ensures Leaks(a) ==> AfterCompileProgram(g, varyings, a).1 == 0
  {
  }

  lemma {:induction false} SessionKeeps(g: Gl, b: Books, calls: seq<Call>)
    requires Kept(g, b) && Orderly(b, calls)
    ensures var b' := Session(b, calls);
      Kept(g, b') && b.lost <= b'.lost && (b'.lost == b.lost <==> NoLeak(calls))
    decreases |calls|
  {
    hide Kept, Do;
    if calls == [] {
    } else {
      DoKeeps(g, b, calls[0]);
      var b1 := Do(b, calls[0]);
      SessionKeeps(g, b1, calls[1..]);
      NoLeakStep(calls);
    }
  }

  lemma NoLeakStep(calls: seq<Call>)
    requires calls != []
    ensures NoLeak(calls) <==> (calls[0].Compile? ==> !Leaks(calls[0].answers)) && NoLeak(calls[1..])
  {
    hide Leaks;
    if NoLeak(calls[1..]) {
      forall k | 1 <= k < |calls| && calls[k].Compile? ensures !Leaks(calls[k].answers) {
        assert calls[k] == calls[1..][k - 1];
      }
    }
  }

  /** With no program named by the caller, only lost programs and the one in use are left. */
  lemma NothingNamed(g: Gl, h: Gl, lost: set<nat>)
    requires Extends(g, h, lost)
    ensures h.programs == g.programs && h.shaders == g.shaders
       <==> lost == {} && (h.current == 0 || h.current in g.programs)
  {
    var live, owner :| Owned(g, h, live, owner) && Named(h, live, lost);
    if lost == {} && (h.current == 0 || h.current in g.programs) {
      assert live == {};
      assert owner.Keys == {};
    } else if p :| p in lost {
      OwnedBounds(g, h, live, owner);
    }
  }

  /**
   Over every orderly session of compilations, deletions and changes of the program in use, in any
   order: once every returned program is deleted and the program of the start is in use again, the
   objects are those of the start exactly if no compilation was left with an error pending.
   Deleting the program in use is undone too, when another program is used.
   */
  lemma SessionConserves(g: Gl, calls: seq<Call>)
    requires g.Valid() && Settled(g) && Orderly(Books(g, {}, {}), calls) && Session(Books(g, {}, {}), calls).names == {}
    ensures var h := Session(Books(g, {}, {}), calls).gl;
      && (h.SameObjects(g) <==> NoLeak(calls) && h.current == g.current)
      && (h.programs == g.programs && h.shaders == g.shaders
          <==> NoLeak(calls) && (h.current == 0 || h.current in g.programs))
  {
    var b := Books(g, {}, {});
    assert Owned(g, g, {}, map[]) && Named(g, {}, {});
    assert b.names + b.lost == {};
    SessionKeeps(g, b, calls);
    var b' := Session(b, calls);
    assert b'.names + b'.lost == b'.lost;
    NothingNamed(g, b'.gl, b'.lost);
  }
}
