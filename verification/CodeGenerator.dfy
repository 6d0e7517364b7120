/** The code generator: emission, jump lists, registers, constants, and the expression
    descriptors built on them. */
module CodeGenerator {
  import opened Basics
  import opened Vm
  import opened Simulation
  import opened Describe
  import opened Transitions
  import opened Compose
  import opened CodeFacts

  const MAXARG_sBx: int := 131071
  const MAXARG_Bx: int := 262143
  const MAXINDEXRK: int := 255
  const MAXSTACK: nat := 250

  /** A syntax error aborts the whole compilation. */
  datatype Status = Done | Failed(msg: string) {
    predicate IsFailure() { Failed? }
    function PropagateFailure(): Status
      requires Failed?
    {
      this
    }
  }

  /** Keys of the table that finds repeated constants; nil has a key of its own. */
  datatype ConstKey = NilKey | BoolKey(b: bool) | NumKey(n: real) | StrKey(s: string)

  function KeyValue(c: ConstKey): Value {
    match c
    case NilKey => Nil
    case BoolKey(b) => Bool(b)
    case NumKey(n) => Num(n)
    case StrKey(s) => Str(s)
  }

  /** The table of known constants agrees with the constants. */
  ghost predicate ConstsOk(k: seq<Value>, h: map<ConstKey, nat>) {
    forall c :: c in h ==> h[c] < |k| && k[h[c]] == KeyValue(c)
  }

  // ---------------------------------------------------------------- size of expressions

  function Size(e: Expr): nat {
    match e
    case Unary(_, arg) => 1 + Size(arg)
    case Binary(_, left, right) => 1 + Size(left) + Size(right)
    case _ => 1
  }

  /** The registers an expression needs: the first operand of `and` and `or` holds none while
      the second is computed. */
  function Depth(e: Expr): (d: nat)
    ensures d >= 2
  {
    match e
    case Unary(_, arg) => Depth(arg)
    case Binary(op, left, right) =>
      var l, r := Depth(left), if op.AND? || op.OR? then Depth(right) else 1 + Depth(right);
      if l > r then l else r
    case _ => 2
  }

  lemma BinaryNeeds(e: Expr)
    requires e.Binary?
    ensures Size(e) == 1 + Size(e.left) + Size(e.right) && Depth(e) >= Depth(e.left)
    ensures Depth(e) >= if e.bop.AND? || e.bop.OR? then Depth(e.right) else 1 + Depth(e.right)
  {
  }

  // ---------------------------------------------------------------- state

  /** expdesc.  `ts` and `fs` are the jumps of its two lists. */
  class ExpDesc {
    var k: Kind
    var t: int
    var f: int
    ghost var ts: seq<int>
    ghost var fs: seq<int>

    /** init_exp */
    constructor (kind: Kind)
      ensures k == kind && t == f == NO_JUMP && ts == fs == []
    {
      k := kind;
      t, f := NO_JUMP, NO_JUMP;
      ts, fs := [], [];
    }

    predicate HasJumps()
      reads this
    {
      t != f
    }

    predicate IsNumeral()
      reads this
    {
      k.VKNUM? && t == NO_JUMP && f == NO_JUMP
    }

    ghost function Mine(): set<int>
      reads this
    {
      Elems(ts) + Elems(fs) + (if k.VJMP? then {k.jump as int} else {})
    }
  }

  class FuncState {
    const S: Sem
    ghost const np: nat
    var code: seq<Instr>
    var lasttarget: int
    var jpc: int
    var freereg: nat
    var nactvar: nat
    var maxstacksize: nat
    var k: seq<Value>
    var h: map<ConstKey, nat>
    ghost var js: seq<int>   // the jumps pending to the end of the code
    ghost var pend: set<int> // every jump without a target

    ghost function Pr(): Prog
      reads this
    {
      Prog(code, k, pend)
    }

    ghost predicate ListsOk()
      reads this
    {
      && IsList(code, jpc, js) && Elems(js) <= pend
      && (forall j :: j in pend ==> 0 <= j < |code| && code[j].JMP?)
    }

    ghost predicate Valid()
      reads this
    {
      && CodeOk(code, pend, lasttarget) && lasttarget <= |code|
      && IsList(code, jpc, js) && Elems(js) <= pend && (js != [] ==> lasttarget == |code|)
      && np <= nactvar <= freereg <= maxstacksize < MAXSTACK
      && ConstsOk(k, h)
      && S.Sane()
    }

    ghost function Held(e: ExpDesc): set<int>
      reads this, e
    {
      pend - Elems(js) - e.Mine()
    }

    /** The lists of `e` are lists of pending jumps, apart from each other and from `jpc`; an
        open suffix is the end of the code, with no label after it. */
    ghost predicate Owns(e: ExpDesc)
      reads this, e
    {
      && IsList(code, e.t, e.ts) && IsList(code, e.f, e.fs)
      && e.Mine() <= pend
      && Elems(e.ts) !! Elems(e.fs) && Elems(js) !! e.Mine()
      && (e.k.VRELOCABLE? ==> js == [] && e.k.at + 1 == |code| && lasttarget < |code| && code[e.k.at].IsLoad())
      && (e.k.VJMP? ==> js == [] && e.k.jump + 1 == |code| && lasttarget < e.k.jump && e.k.jump !in Elems(e.ts) + Elems(e.fs))
    }

    /** What is true of a descriptor between any two operations, for a compilation goal. */
    ghost predicate Inv(g: Goal, e: ExpDesc)
      reads this, e
    {
      && Valid() && Owns(e)
      && g.S == S && g.np == np && nactvar <= g.free0 <= freereg
      && g.p0.pend - g.here0 == Held(e)
      && StageOk(Pr(), Val(e.k))
      && (e.k.VLOCAL? ==> e.k.local < nactvar)
      && (e.k.VKNUM? ==> !S.isNaN(e.k.nval))
      && (e.k.VUPVAL? || e.k.VGLOBAL? ==> e.ts == [] && e.fs == [])
      && Described(g, Pr(), Elems(js), Val(e.k), Elems(e.ts), Elems(e.fs))
    }

    /** Register discipline: a temporary holding the value is the only one in use since the
        expression began. */
    ghost predicate Temp(g: Goal, e: ExpDesc)
      reads this, e
    {
      if e.k.VNONRELOC? && e.k.reg >= nactvar then e.k.reg == g.free0 && freereg == g.free0 + 1
      else freereg == g.free0
    }

    /** What every operation on `e` leaves alone: active locals, existing constants, and the
        jumps that are pending for somebody else. */
    twostate predicate Steady(e: ExpDesc)
      reads this, e
    {
      && nactvar == old(nactvar) && old(k) <= k
      && Held(e) == old(Held(e))
      && Kept(old(code), code, old(Held(e)))
    }

    /** One of the limits of a function is reached: the length of a jump, the number of constants,
        or the number of registers. */
    predicate AtLimit()
      reads this
    {
      |code| > MAXARG_sBx || |k| >= MAXARG_Bx || freereg + 1 >= MAXSTACK
    }

    /** At most `n` new instructions and constants, at most `free` registers in use, and failure
        only at a limit. */
    twostate predicate Bounded(n: nat, free: nat, st: Status)
      reads this
    {
      |code| <= |old(code)| + n && |k| <= |old(k)| + n && freereg <= free && (st.Failed? ==> AtLimit())
    }

    // -------------------------------------------------------------- jumps

    predicate TestBefore(pc: int)
      requires 0 <= pc < |code|
      reads this
    {
      pc >= 1 && code[pc - 1].IsTest()
    }

    method FixJump(pc: int, dest: int) returns (st: Status)
      requires 0 <= pc < |code| && code[pc].JMP? && dest != NO_JUMP
      modifies this`code
      ensures st.Done? ==> code == old(code)[pc := JMP(dest - (pc + 1))]
      ensures st.Failed? ==> code == old(code) && (dest - (pc + 1) > MAXARG_sBx || pc + 1 - dest > MAXARG_sBx)
    {
      var offset := dest - (pc + 1);
      if (if offset < 0 then -offset else offset) > MAXARG_sBx {
        return Failed("control structure too long");
      }
      code := code[pc := JMP(offset)];
      return Done;
    }

    method PatchTestReg(node: int, reg: Reg) returns (b: bool)
      requires 0 <= node < |code| && code[node].JMP?
      modifies this`code
      ensures b == Valued(old(code), node)
      ensures |code| == |old(code)|
      ensures forall i :: 0 <= i < |code| && i != node - 1 ==> code[i] == old(code)[i]
      ensures node >= 1 ==> code[node - 1] == PatchAt(old(code), {node}, 0, reg, 0, node - 1)
    {
      if !(TestBefore(node) && code[node - 1].TESTSET?) {
        return false;
      }
      var i := code[node - 1];
      if reg != NO_REG && reg != i.b {
        code := code[node - 1 := TESTSET(reg, i.b, i.c)];
      } else {
        code := code[node - 1 := TEST(i.b, i.c)];
      }
      return true;
    }

    method PatchListAux(list: int, vtarget: int, reg: Reg, dtarget: int, ghost l: seq<int>) returns (st: Status)
      requires IsList(code, list, l) && 0 <= vtarget <= |code| && dtarget <= |code|
      requires forall j :: j in l ==> Valued(code, j) || dtarget >= 0
      modifies this`code, this`pend
      ensures st.Done? ==> code == Patch(old(code), Elems(l), vtarget, reg, dtarget) && pend == old(pend) - Elems(l)
      ensures Bounded(0, old(freereg), st)
    {
      hide IsList, FuncState.TestBefore, Valued, Patched;
      var node := list;
      ghost var n := 0;
      ghost var c := code;
      HeadOf(c, list, l);
      assert Elems(l[..0]) == {};
      NonePatched(c, vtarget, reg, dtarget);
      while node != NO_JUMP
        invariant 0 <= n <= |l| && |code| == |c|
        invariant node == if n < |l| then l[n] else NO_JUMP
        invariant Patched(c, Elems(l[..n]), vtarget, reg, dtarget, code)
        invariant pend == old(pend)
        decreases |l| - n
      {
        LinkAt(c, list, l, n);
        NextUnpatched(c, Elems(l[..n]), vtarget, reg, dtarget, code, node);
        var next := NextJump(code, node);
        ghost var c1 := code;
        var b := PatchTestReg(node, reg);
        if b {
          :- FixJump(node, vtarget);
        } else {
          :- FixJump(node, dtarget);
        }
        assert Elems(l[..n + 1]) == Elems(l[..n]) + {node} by { assert l[..n + 1] == l[..n] + [node]; }
        PatchOneMore(c, Elems(l[..n]), vtarget, reg, dtarget, node, c1, code);
        node := next;
        n := n + 1;
      }
      assert l[..n] == l;
      AllPatched(c, Elems(l), vtarget, reg, dtarget, code);
      pend := pend - Elems(l);
      return Done;
    }

    method DischargeJpc() returns (st: Status)
      requires ListsOk()
      modifies this`code, this`jpc, this`js, this`pend
      ensures st.Done? ==> code == Patch(old(code), Elems(old(js)), |old(code)|, NO_REG, |old(code)|)
      ensures st.Done? ==> jpc == NO_JUMP && js == [] && pend == old(pend) - Elems(old(js))
      ensures Bounded(0, old(freereg), st)
    {
      st := PatchListAux(jpc, |code|, NO_REG, |code|, js);
      if st.Done? {
        jpc, js := NO_JUMP, [];
      }
    }

    /** luaK_code */
    method Code(i: Instr) returns (st: Status)
      requires ListsOk()
      modifies this`code, this`jpc, this`js, this`pend
      ensures st.Done? ==> code == Patch(old(code), Elems(old(js)), |old(code)|, NO_REG, |old(code)|) + [i]
      ensures st.Done? ==> jpc == NO_JUMP && js == [] && pend == old(pend) - Elems(old(js))
      ensures Bounded(1, old(freereg), st)
    {
      st := DischargeJpc();
      if st.Done? {
        code := code + [i];
      }
    }

    /** luaK_concat: the second list is appended to the first. */
    method Concat(l1: int, l2: int, ghost s1: seq<int>, ghost s2: seq<int>) returns (st: Status, l: int)
      requires IsList(code, l1, s1) && IsList(code, l2, s2) && Elems(s1) !! Elems(s2)
      modifies this`code
      ensures st.Done? ==> IsList(code, l, s1 + s2)
      ensures st.Done? && (s1 == [] || s2 == []) ==> code == old(code)
      ensures st.Done? ==> |code| == |old(code)| && forall i :: 0 <= i < |code| ==>
        code[i] == old(code)[i] || (i in s1 && old(code)[i].JMP? && code[i].JMP?)
      ensures Bounded(0, old(freereg), st)
    {
      if l2 == NO_JUMP {
        assert s1 + s2 == s1;
        return Done, l1;
      } else if l1 == NO_JUMP {
        assert s1 + s2 == s2;
        return Done, l2;
      }
      var list := l1;
      ghost var n := 0;
      var next := NextJump(code, list);
      l := l1;
      while next != NO_JUMP
        invariant code == old(code) && 0 <= n < |s1| && list == s1[n]
        invariant next == NextJump(code, s1[n])
        decreases |s1| - n
      {
        LinkAt(code, l1, s1, n);
        list := next;
        n := n + 1;
        next := NextJump(code, list);
      }
      ghost var c := code;
      LinkAt(code, l1, s1, n);
      assert s1[n] in Elems(s1) && s2[0] in Elems(s2) && l2 == s2[0];
      :- FixJump(list, l2);
      ghost var s := s1 + s2;
      assert NextJump(code, list) == l2;
      forall i | 0 <= i < |s| ensures 0 <= s[i] < |code| && Linked(code, s, i) {
        if i < n { LinkAt(c, l1, s1, i); assert s[i] == s1[i] != s1[n]; }
        else if i > n {
          var x := i - |s1|;
          assert s[i] == s2[x] && s2[x] in Elems(s2);
          LinkAt(c, l2, s2, x);
        }
      }
      assert NoDup(s) by { NoDupAppend(s1, s2); }
      return Done, l1;
    }

    static lemma NoDupAppend(s1: seq<int>, s2: seq<int>)
      requires NoDup(s1) && NoDup(s2) && Elems(s1) !! Elems(s2)
      ensures NoDup(s1 + s2)
    {
      var s := s1 + s2;
      forall i, j | 0 <= i < j < |s| ensures s[i] != s[j] {
        if i < |s1| <= j { assert s[i] in Elems(s1) && s[j] in Elems(s2); }
      }
    }

    method GetLabel() returns (pc: int)
      modifies this`lasttarget
      ensures lasttarget == pc == |code|
    {
      lasttarget := |code|;
      return |code|;
    }

    /** luaK_jump: an unconditional jump, holding the jumps that were pending to here. */
    method Jump() returns (st: Status, j: int, ghost l: seq<int>)
      requires ListsOk()
      modifies this`code, this`jpc, this`js, this`pend
      ensures st.Done? ==> |code| == |old(code)| + 1 && code[..|old(code)|] == old(code) && code[|old(code)|].JMP?
      ensures st.Done? && old(js) == [] ==> code[|old(code)|] == JMP(NO_JUMP)
      ensures st.Done? ==> l == [|old(code)|] + old(js) && IsList(code, j, l)
      ensures st.Done? ==> jpc == NO_JUMP && js == [] && pend == old(pend) + {|old(code)|}
      ensures Bounded(1, old(freereg), st)
    {
      hide FuncState.AtLimit, Kept;
      var here := jpc;
      ghost var hs, c := js, code;
      jpc, js := NO_JUMP, [];
      j := |code|;
      l := [];
      assert Patch(c, {}, |c|, NO_REG, |c|) == c;
      assert Elems([]) == {};
      :- Code(JMP(NO_JUMP));
      pend := pend + {j};
      assert code == c + [JMP(NO_JUMP)];
      assert Linked(code, [j], 0);
      assert IsList(code, j, [j]);
      ListKept(c, code, here, hs);
      j :- Concat(j, here, [j], hs);
      assert code[..|c|] == c;
      l := [|c|] + hs;
      return Done, j, l;
    }

    /** luaK_patchtohere */
    method PatchToHere(list: int, ghost l: seq<int>) returns (st: Status)
      requires IsList(code, jpc, js) && IsList(code, list, l) && Elems(js) !! Elems(l)
      modifies this`code, this`jpc, this`js, this`lasttarget
      ensures st.Done? ==> lasttarget == |code| == |old(code)|
      ensures st.Done? ==> js == old(js) + l && IsList(code, jpc, js)
      ensures st.Done? && (old(js) == [] || l == []) ==> code == old(code)
      ensures st.Done? ==> forall i :: 0 <= i < |code| ==>
        code[i] == old(code)[i] || (i in old(js) && old(code)[i].JMP? && code[i].JMP?)
      ensures Bounded(0, old(freereg), st)
    {
      var _ := GetLabel();
      jpc :- Concat(jpc, list, js, l);
      js := js + l;
      return Done;
    }

    /** need_value: some jump of the list does not produce a value. */
    method NeedValue(list: int, ghost l: seq<int>) returns (b: bool)
      requires IsList(code, list, l)
      ensures b <==> exists j :: j in l && !Valued(code, j)
    {
      var node := list;
      ghost var n := 0;
      while node != NO_JUMP
        invariant 0 <= n <= |l|
        invariant node == if n < |l| then l[n] else NO_JUMP
        invariant forall i :: 0 <= i < n ==> Valued(code, l[i])
        decreases |l| - n
      {
        LinkAt(code, list, l, n);
        if !(TestBefore(node) && code[node - 1].TESTSET?) {
          assert l[n] in l && !Valued(code, l[n]);
          return true;
        }
        node := NextJump(code, node);
        n := n + 1;
      }
      return false;
    }

    /** removevalues */
    method RemoveValues(list: int, ghost l: seq<int>)
      requires IsList(code, list, l)
      modifies this`code
      ensures |code| == |old(code)|
      ensures forall i :: 0 <= i < |code| ==> code[i] == StripAt(old(code), Elems(l), i)
    {
      var node := list;
      ghost var n := 0;
      ghost var c := code;
      while node != NO_JUMP
        invariant 0 <= n <= |l| && |code| == |c|
        invariant node == if n < |l| then l[n] else NO_JUMP
        invariant forall i :: 0 <= i < |c| ==> code[i] == StripAt(c, Elems(l[..n]), i)
        decreases |l| - n
      {
        LinkAt(c, list, l, n);
        ghost var c1 := code;
        assert code[node] == StripAt(c, Elems(l[..n]), node);
        var next := NextJump(code, node);
        if node >= 1 { assert c1[node - 1] == StripAt(c, Elems(l[..n]), node - 1); }
        var _ := PatchTestReg(node, NO_REG);
        assert Elems(l[..n + 1]) == Elems(l[..n]) + {node} by { assert l[..n + 1] == l[..n] + [node]; }
        forall i | 0 <= i < |c| ensures code[i] == StripAt(c, Elems(l[..n + 1]), i) {
          assert c1[i] == StripAt(c, Elems(l[..n]), i);
        }
        node := next;
        n := n + 1;
      }
      assert l[..n] == l;
    }

    // -------------------------------------------------------------- registers

    method CheckStack(n: nat) returns (st: Status)
      requires freereg <= maxstacksize < MAXSTACK
      modifies this`maxstacksize
      ensures st.Done? ==> freereg + n <= maxstacksize < MAXSTACK
      ensures st.Failed? ==> freereg + n >= MAXSTACK
    {
      var newstack := freereg + n;
      if newstack > maxstacksize {
        if newstack >= MAXSTACK {
          return Failed("function or expression too complex");
        }
        maxstacksize := newstack;
      }
      return Done;
    }

    method ReserveRegs(n: nat) returns (st: Status)
      requires freereg <= maxstacksize < MAXSTACK
      modifies this`maxstacksize, this`freereg
      ensures st.Done? ==> freereg == old(freereg) + n && freereg <= maxstacksize < MAXSTACK
      ensures st.Failed? ==> freereg == old(freereg) && freereg + n >= MAXSTACK
    {
      st := CheckStack(n);
      if st.Done? {
        freereg := freereg + n;
      }
    }

    /** Registers are freed in the opposite order of their allocation. */
    method FreeReg(reg: nat)
      requires reg >= nactvar ==> freereg == reg + 1
      modifies this`freereg
      ensures freereg == if reg >= nactvar then old(freereg) - 1 else old(freereg)
    {
      if reg >= nactvar {
        freereg := freereg - 1;
        assert reg == freereg;
      }
    }

    method FreeExp(e: ExpDesc)
      requires e.k.VNONRELOC? && e.k.reg >= nactvar ==> freereg == e.k.reg + 1
      modifies this`freereg
      ensures freereg == if e.k.VNONRELOC? && e.k.reg >= nactvar then old(freereg) - 1 else old(freereg)
    {
      if e.k.VNONRELOC? {
        FreeReg(e.k.reg);
      }
    }

    // -------------------------------------------------------------- constants

    /** addk: an existing entry of the constant table, or a new one. */
    method AddK(key: ConstKey) returns (st: Status, index: nat)
      requires ConstsOk(k, h)
      modifies this`k, this`h
      ensures st.Done? ==> ConstsOk(k, h) && old(k) <= k && index < |k| && k[index] == KeyValue(key) && index <= |old(k)|
      ensures Bounded(1, old(freereg), st)
    {
      index := 0;
      if key in h {
        return Done, h[key];
      }
      if |k| + 1 > MAXARG_Bx {
        return Failed("constant table overflow"), 0;
      }
      index := |k|;
      k := k + [KeyValue(key)];
      h := h[key := index];
      return Done, index;
    }

    method StringK(s: string) returns (st: Status, index: nat)
      requires ConstsOk(k, h)
      modifies this`k, this`h
      ensures st.Done? ==> ConstsOk(k, h) && old(k) <= k && index < |k| && k[index] == Str(s) && index <= |old(k)|
      ensures Bounded(1, old(freereg), st)
    {
      st, index := AddK(StrKey(s));
    }

    method NumberK(n: real) returns (st: Status, index: nat)
      requires ConstsOk(k, h)
      modifies this`k, this`h
      ensures st.Done? ==> ConstsOk(k, h) && old(k) <= k && index < |k| && k[index] == Num(n) && index <= |old(k)|
      ensures Bounded(1, old(freereg), st)
    {
      st, index := AddK(NumKey(n));
    }

    method BoolK(b: bool) returns (st: Status, index: nat)
      requires ConstsOk(k, h)
      modifies this`k, this`h
      ensures st.Done? ==> ConstsOk(k, h) && old(k) <= k && index < |k| && k[index] == Bool(b) && index <= |old(k)|
      ensures Bounded(1, old(freereg), st)
    {
      st, index := AddK(BoolKey(b));
    }

    method NilK() returns (st: Status, index: nat)
      requires ConstsOk(k, h)
      modifies this`k, this`h
      ensures st.Done? ==> ConstsOk(k, h) && old(k) <= k && index < |k| && k[index] == Nil && index <= |old(k)|
      ensures Bounded(1, old(freereg), st)
    {
      st, index := AddK(NilKey);
    }

    // -------------------------------------------------------------- descriptors

    predicate IsVar(e: ExpDesc)
      reads e
    {
      e.k.VLOCAL? || e.k.VUPVAL? || e.k.VGLOBAL?
    }

    /** Emit the instruction that loads the value of `e` into `reg`. */
    method LoadTo(e: ExpDesc, ins: Instr, reg: nat, ghost g: Goal) returns (st: Status)
      requires Inv(g, e) && !e.k.VRELOCABLE? && !e.k.VJMP?
      requires g.free0 <= reg < freereg
      requires LoadsValue(S, Pr(), e.k, k, ins, reg)
      requires !ins.IsTest() && !ins.JMP? && !(ins.LOADBOOL? && ins.skip)
      modifies this`code, this`jpc, this`js, this`pend, e`k
      ensures st.Done? ==> Inv(g, e) && Steady(e) && e.k == VNONRELOC(reg)
      ensures Bounded(1, old(freereg), st)
    {
      hide IsList;
      ghost var p, here := Pr(), Elems(js);
      PendingLists(e);
      :- Code(ins);
      AfterEmit(p.c, p.pend, lasttarget, old(js), e.t, e.ts, e.f, e.fs, ins, code);
      LoadInto(g, p, here, e.k, Elems(e.ts), Elems(e.fs), Pr(), ins, reg);
      e.k := VNONRELOC(reg);
      return Done;
    }

    /** Lists of an owned descriptor are pending. */
    lemma PendingLists(e: ExpDesc)
      requires Valid() && Owns(e)
      ensures Pending(Pr(), Elems(js)) && Pending(Pr(), Elems(e.ts) + Elems(e.fs)) && Elems(js) !! Elems(e.ts) + Elems(e.fs)
      ensures js == [] ==> jpc == NO_JUMP
    {
    }

    /** luaK_dischargevars */
    method DischargeVars(e: ExpDesc, ghost g: Goal) returns (st: Status)
      requires Inv(g, e)
      modifies this`code, this`jpc, this`js, this`pend, e`k
      ensures st.Done? ==> Inv(g, e) && Steady(e) && !IsVar(e)
      ensures !old(IsVar(e)) ==> st.Done? && code == old(code) && jpc == old(jpc) && js == old(js) && pend == old(pend) && e.k == old(e.k)
      ensures st.Done? && old(e.k.VLOCAL?) ==> e.k == VNONRELOC(old(e.k).local)
      ensures st.Done? && (old(e.k.VUPVAL?) || old(e.k.VGLOBAL?)) ==> e.k.VRELOCABLE?
      ensures Bounded(1, old(freereg), st)
    {
      hide FuncState.AtLimit, Described, IsList, Elems;
      match e.k {
        case VLOCAL(r) =>
          Restage(g, Pr(), Elems(js), Val(e.k), Elems(e.ts), Elems(e.fs), Pr(), Val(VNONRELOC(r)));
          e.k := VNONRELOC(r);
        case VUPVAL(u) => :- OpenTo(e, GETUPVAL(0, u), g);
        case VGLOBAL(n) => :- OpenTo(e, GETGLOBAL(0, n), g);
        case _ =>
      }
      return Done;
    }

    /** Emit a load whose destination is still open. */
    method OpenTo(e: ExpDesc, ins: Instr, ghost g: Goal) returns (st: Status)
      requires Inv(g, e) && (e.k.VUPVAL? || e.k.VGLOBAL?)
      requires ins == (if e.k.VUPVAL? then GETUPVAL(0, e.k.up) else GETGLOBAL(0, e.k.name))
      modifies this`code, this`jpc, this`js, this`pend, e`k
      ensures st.Done? ==> Inv(g, e) && Steady(e) && e.k.VRELOCABLE?
      ensures Bounded(1, old(freereg), st)
    {
      hide Described, Pending;
      ghost var p, here := Pr(), Elems(js);
      :- Code(ins);
      EmitKeepsCode(p.c, p.pend, lasttarget, here, ins, code);
      assert Elems(e.ts) == {} && Elems(e.fs) == {};
      OpenLoad(g, p, here, Val(e.k), g.src, Pr(), ins);
      assert g.(src := g.src) == g;
      e.k := VRELOCABLE(|code| - 1);
      assert Elems(js) == {};
      return Done;
    }

    /** luaK_nil: extend the LOADNIL just emitted when no jump leads here, rely on clean
        registers at function entry, otherwise emit. */
    method EmitNil(from: nat, n: nat) returns (st: Status)
      requires ListsOk() && n >= 1 && from + n <= MAXSTACK && lasttarget <= |code| && (js != [] ==> lasttarget == |code|)
      modifies this`code, this`jpc, this`js, this`pend
      ensures st.Done? ==>
        || (code == old(code) == [] && from >= nactvar && lasttarget < 0 && js == old(js) && jpc == old(jpc) && pend == old(pend))
        || (old(code) != [] && lasttarget < |code| && js == old(js) == [] && jpc == old(jpc) && pend == old(pend) &&
            var m := |old(code)| - 1; var l := old(code)[m];
            l.LOADNIL? && l.a <= from <= l.to + 1 &&
            code == old(code)[..m] + [LOADNIL(l.a, if from + n - 1 > l.to then from + n - 1 else l.to)])
        || (code == Patch(old(code), Elems(old(js)), |old(code)|, NO_REG, |old(code)|) + [LOADNIL(from, from + n - 1)] &&
            jpc == NO_JUMP && js == [] && pend == old(pend) - Elems(old(js)))
      ensures Bounded(1, old(freereg), st)
    {
      if |code| > lasttarget {
        if |code| == 0 {
          if from >= nactvar {
            return Done;
          }
        } else {
          var previous := code[|code| - 1];
          if previous.LOADNIL? {
            var pfrom: int, pto: int := previous.a, previous.to;
            if pfrom <= from && from <= pto + 1 {
              if from + n - 1 > pto {
                code := code[|code| - 1 := LOADNIL(pfrom, from + n - 1)];
              }
              assert code[..|code| - 1] == old(code)[..|code| - 1];
              return Done;
            }
          }
        }
      }
      st := Code(LOADNIL(from, from + n - 1));
    }

    /** discharge2reg, VNIL */
    method NilTo(e: ExpDesc, reg: nat, ghost g: Goal) returns (st: Status)
      requires Inv(g, e) && e.k.VNIL?
      requires g.free0 <= reg < freereg
      modifies this`code, this`jpc, this`js, this`pend, e`k
      ensures st.Done? ==> Inv(g, e) && Steady(e) && e.k == VNONRELOC(reg)
      ensures Bounded(1, old(freereg), st)
    {
      ghost var p := Pr();
      PendingLists(e);
      :- EmitNil(reg, 1);
      NilDone(g, p, lasttarget, nactvar, old(js), old(jpc), e.t, e.ts, e.f, e.fs, Pr(), js, reg);
      e.k := VNONRELOC(reg);
      return Done;
    }

    /** discharge2reg, VRELOCABLE */
    method PlaceTo(e: ExpDesc, reg: nat, ghost g: Goal) returns (st: Status)
      requires Inv(g, e) && e.k.VRELOCABLE?
      requires g.free0 <= reg < freereg
      modifies this`code, e`k
      ensures st.Done? ==> Inv(g, e) && Steady(e) && e.k == VNONRELOC(reg)
      ensures Bounded(0, old(freereg), st)
    {
      hide Described, IsList, ConstsOk, CodeOk, StageOk, Pending;
      ghost var p := Pr();
      var at := e.k.at;
      PendingLists(e);
      assert Elems(js) == {};
      code := code[at := code[at].WithA(reg)];
      PlacedReloc(p.c, p.pend, lasttarget, e.t, e.ts, e.f, e.fs, at, code);
      PlaceReloc(g, p, at, Elems(e.ts), Elems(e.fs), Pr(), reg);
      e.k := VNONRELOC(reg);
      NoList(code);
      return Done;
    }

    /** discharge2reg, VKNUM: the numeral becomes a constant. */
    method NumeralTo(e: ExpDesc, reg: nat, ghost g: Goal) returns (st: Status)
      requires Inv(g, e) && e.k.VKNUM?
      requires g.free0 <= reg < freereg
      modifies this`code, this`jpc, this`js, this`pend, this`k, this`h, e`k
      ensures st.Done? ==> Inv(g, e) && Steady(e) && e.k == VNONRELOC(reg)
      ensures Bounded(1, old(freereg), st)
    {
      var i :- NumberK(e.k.nval);
      MoreConsts(g, e, old(k));
      LoadsKind(S, Pr(), e.k, k, LOADK(reg, i), reg);
      :- LoadTo(e, LOADK(reg, i), reg, g);
      return Done;
    }

    /** discharge2reg: put the value of `e` into `reg`; a comparison is left as it is. */
    method Discharge2Reg(e: ExpDesc, reg: nat, ghost g: Goal) returns (st: Status)
      requires Inv(g, e) && !IsVar(e)
      requires g.free0 <= reg < freereg
      modifies this`code, this`jpc, this`js, this`pend, this`k, this`h, e`k
      ensures st.Done? ==> Inv(g, e) && Steady(e)
      ensures st.Done? ==> e.k == if old(e.k).VJMP? then old(e.k) else VNONRELOC(reg)
      ensures st.Done? && old(e.k.VJMP?) ==> code == old(code) && js == old(js)
      ensures Bounded(1, old(freereg), st)
    {
      var load: Instr;
      match e.k {
        case VNIL => st := NilTo(e, reg, g); return;
        case VRELOCABLE(_) => st := PlaceTo(e, reg, g); return;
        case VKNUM(_) => st := NumeralTo(e, reg, g); return;
        case VJMP(_) => return Done;
        case VNONRELOC(x) =>
          if reg == x { return Done; }
          load := MOVE(reg, x);
        case VFALSE => load := LOADBOOL(reg, false, false);
        case VTRUE => load := LOADBOOL(reg, true, false);
        case VK(i) => load := LOADK(reg, i);
      }
      LoadsKind(S, Pr(), e.k, k, load, reg);
      st := LoadTo(e, load, reg, g);
    }

    /** A new constant changes nothing about a descriptor. */
    lemma MoreConsts(g: Goal, e: ExpDesc, k0: seq<Value>)
      requires Valid() && Owns(e) && k0 <= k && g.S == S && Suffix(Val(e.k)) == 0
      requires Described(g, Prog(code, k0, pend), Elems(js), Val(e.k), Elems(e.ts), Elems(e.fs))
      requires g.p0.pend - g.here0 == Held(e)
      ensures Described(g, Pr(), Elems(js), Val(e.k), Elems(e.ts), Elems(e.fs))
    {
      PendingLists(e);
      Restage(g, Prog(code, k0, pend), Elems(js), Val(e.k), Elems(e.ts), Elems(e.fs), Pr(), Val(e.k));
    }

    method Discharge2AnyReg(e: ExpDesc, ghost g: Goal) returns (st: Status)
      requires Inv(g, e) && Temp(g, e) && !IsVar(e) && !e.k.VJMP?
      modifies this`code, this`jpc, this`js, this`pend, this`k, this`h, this`freereg, this`maxstacksize, e`k
      ensures st.Done? ==> Inv(g, e) && Temp(g, e) && Steady(e) && e.k.VNONRELOC?
      ensures st.Done? && old(e.k).VNONRELOC? ==> e.k == old(e.k)
      ensures Bounded(1, g.free0 + 1, st)
    {
      if !e.k.VNONRELOC? {
        :- ReserveRegs(1);
        :- Discharge2Reg(e, freereg - 1, g);
      }
      return Done;
    }

    // -------------------------------------------------------------- tests and jumps

    ghost function Rest(e: ExpDesc): set<int>
      reads this, e
    {
      pend - Elems(js) - Elems(e.ts) - Elems(e.fs)
    }

    /** Both lists are lists of pending jumps, and the goal has got to stage `st`. */
    ghost predicate At(g: Goal, e: ExpDesc, st: Stage)
      reads this, e
    {
      && Valid()
      && IsList(code, e.t, e.ts) && IsList(code, e.f, e.fs)
      && Elems(e.ts) + Elems(e.fs) <= pend
      && Elems(e.ts) !! Elems(e.fs) && Elems(js) !! Elems(e.ts) + Elems(e.fs)
      && g.S == S && g.np == np && nactvar <= g.free0 <= freereg
      && g.p0.pend - g.here0 == Rest(e)
      && Described(g, Pr(), Elems(js), st, Elems(e.ts), Elems(e.fs))
    }

    /** condjump */
    method CondJump(i: Instr) returns (st: Status, j: int)
      requires ListsOk()
      modifies this`code, this`jpc, this`js, this`pend
      ensures st.Done? ==> code == Patch(old(code), Elems(old(js)), |old(code)|, NO_REG, |old(code)|) + [i, JMP(NO_JUMP)]
      ensures st.Done? ==> j == |old(code)| + 1 && jpc == NO_JUMP && js == [] && pend == old(pend) - Elems(old(js)) + {j}
      ensures Bounded(2, old(freereg), st)
    {
      j := 0;
      :- Code(i);
      ghost var c := code;
      ghost var l;
      j, l :- Jump();
      assert code == c + [JMP(NO_JUMP)] by { assert code[..|c|] == c; }
      return Done, j;
    }

    /** jumponcond, first case: the OP_NOT just emitted is taken back and its operand tested. */
    method TestOperand(e: ExpDesc, cond: bool, ghost g: Goal) returns (st: Status, pc: int)
      requires Inv(g, e) && e.k.VRELOCABLE? && code[e.k.at].NOTOP?
      modifies this`code, this`jpc, this`js, this`pend
      ensures st.Done? ==> Tested(g, e, pc, cond) && Kept(old(code), code, old(Held(e)))
      ensures Bounded(1, old(freereg), st)
    {
      hide Described, ConstsOk, Kept, IsList, StageOk;
      pc := 0;
      ghost var p := Pr();
      var ie := code[e.k.at];
      PendingLists(e);
      code := code[..|code| - 1];
      assert ListsOk() by {
        RemovedNot(p.c, p.pend, lasttarget, e.t, e.ts, e.f, e.fs, code);
        NoList(code);
      }
      assert Elems(js) == {};
      pc :- CondJump(TEST(ie.b, !cond));
      OperandTested(g, p, lasttarget, e.t, e.ts, e.f, e.fs, Pr(), cond);
      KeptLess(p.c, code, old(Held(e)), p.pend);
      return Done, pc;
    }

    /** jumponcond, second case: the value is in a register. */
    method TestRegister(e: ExpDesc, cond: bool, ghost g: Goal) returns (st: Status, pc: int)
      requires Inv(g, e) && e.k.VNONRELOC?
      modifies this`code, this`jpc, this`js, this`pend
      ensures st.Done? ==> Tested(g, e, pc, cond) && Kept(old(code), code, old(Held(e)))
      ensures Bounded(2, old(freereg), st)
    {
      hide IsList, ConstsOk;
      pc := 0;
      ghost var p, here := Pr(), js;
      PendingLists(e);
      pc :- CondJump(TESTSET(NO_REG, e.k.reg, cond));
      AfterTest(p.c, p.pend, lasttarget, here, e.t, e.ts, e.f, e.fs, TESTSET(NO_REG, e.k.reg, cond), code);
      ValueTested(g, p, Elems(here), e.k.reg, Elems(e.ts), Elems(e.fs), Pr(), cond);
      return Done, pc;
    }

    /** jumponcond: test the value of `e`, or the operand of the OP_NOT just emitted. */
    method JumpOnCond(e: ExpDesc, cond: bool, ghost g: Goal) returns (st: Status, pc: int)
      requires Inv(g, e) && Temp(g, e) && !IsVar(e) && !e.k.VJMP?
      modifies this`code, this`jpc, this`js, this`pend, this`k, this`h, this`freereg, this`maxstacksize, e`k
      ensures st.Done? ==> Tested(g, e, pc, cond) && freereg == g.free0
      ensures st.Done? ==> nactvar == old(nactvar) && old(k) <= k && Kept(old(code), code, old(Held(e)))
      ensures Bounded(3, g.free0 + 1, st)
    {
      hide Described, ConstsOk, CodeOk, IsList, Valued, StageOk, Elems;
      pc := 0;
      if e.k.VRELOCABLE? && code[e.k.at].NOTOP? {
        pc :- TestOperand(e, cond, g);
        return Done, pc;
      }
      :- Discharge2AnyReg(e, g);
      FreeExp(e);
      pc :- TestRegister(e, cond, g);
      return Done, pc;
    }

    /** A test was just made: jump `pc` (if any) has yet to join the list of its condition. */
    ghost predicate Tested(g: Goal, e: ExpDesc, pc: int, cond: bool)
      reads this, e
    {
      && Valid() && js == []
      && IsList(code, e.t, e.ts) && IsList(code, e.f, e.fs)
      && pc + 1 == |code| && pc >= 1 && code[pc] == JMP(NO_JUMP) && pc in pend && pc !in Elems(e.ts) + Elems(e.fs)
      && Elems(e.ts) + Elems(e.fs) <= pend && Elems(e.ts) !! Elems(e.fs)
      && g.S == S && g.np == np && nactvar <= g.free0 <= freereg
      && g.p0.pend - g.here0 == pend - Elems(e.ts) - Elems(e.fs) - {pc}
      && Described(g, Pr(), {}, Cond(!cond), if cond then Elems(e.ts) + {pc} else Elems(e.ts), if cond then Elems(e.fs) else Elems(e.fs) + {pc})
    }

    /** luaK_concat of the jump just made to the list of its condition. */
    method JoinJump(e: ExpDesc, pc: int, cond: bool, ghost g: Goal) returns (st: Status)
      requires Tested(g, e, pc, cond)
      modifies this`code, e`t, e`f, e`ts, e`fs
      ensures st.Done? ==> At(g, e, Cond(!cond)) && js == [] && Rest(e) == old(Rest(e)) - {pc}
      ensures st.Done? ==> Kept(old(code), code, old(pend) - old(Elems(e.ts)) - old(Elems(e.fs)) - {pc})
      ensures Bounded(0, old(freereg), st)
    {
      hide FuncState.Tested, FuncState.At, Kept;
      if cond {
        st := JoinTrueJump(e, pc, g);
      } else {
        st := JoinFalseJump(e, pc, g);
      }
    }

    method JoinTrueJump(e: ExpDesc, pc: int, ghost g: Goal) returns (st: Status)
      requires Tested(g, e, pc, true)
      modifies this`code, e`t, e`ts
      ensures st.Done? ==> At(g, e, Cond(false)) && js == [] && Rest(e) == old(Rest(e)) - {pc}
      ensures st.Done? ==> Kept(old(code), code, old(pend) - old(Elems(e.ts)) - old(Elems(e.fs)) - {pc})
      ensures Bounded(0, old(freereg), st)
    {
      hide Described, CodeOk, ConstsOk, FuncState.AtLimit;
      ghost var p := Pr();
      SingleJump(code, pc);
      e.t :- Concat(e.t, pc, e.ts, [pc]);
      JoinedJump(g, p, lasttarget, e.ts, e.f, e.fs, Pr(), pc, true);
      e.ts := e.ts + [pc];
      assert Rest(e) == old(Rest(e)) - {pc};
      return Done;
    }

    method JoinFalseJump(e: ExpDesc, pc: int, ghost g: Goal) returns (st: Status)
      requires Tested(g, e, pc, false)
      modifies this`code, e`f, e`fs
      ensures st.Done? ==> At(g, e, Cond(true)) && js == [] && Rest(e) == old(Rest(e)) - {pc}
      ensures st.Done? ==> Kept(old(code), code, old(pend) - old(Elems(e.ts)) - old(Elems(e.fs)) - {pc})
      ensures Bounded(0, old(freereg), st)
    {
      hide Described, CodeOk, ConstsOk, FuncState.AtLimit, WellFormed;
      ghost var p := Pr();
      SingleJump(code, pc);
      e.f :- Concat(e.f, pc, e.fs, [pc]);
      JoinedJump(g, p, lasttarget, e.fs, e.t, e.ts, Pr(), pc, false);
      e.fs := e.fs + [pc];
      assert Rest(e) == old(Rest(e)) - {pc};
      return Done;
    }

    /** luaK_patchtohere of the list whose jumps agree with falling through. */
    method FallHere(e: ExpDesc, b: bool, ghost g: Goal) returns (st: Status)
      requires At(g, e, Cond(b))
      modifies this`code, this`jpc, this`js, this`lasttarget, e`t, e`f, e`ts, e`fs
      ensures st.Done? ==> At(g, e, Cond(b)) && (if b then e.ts == [] else e.fs == []) && Rest(e) == old(Rest(e))
      ensures st.Done? ==> Kept(old(code), code, old(Rest(e))) && lasttarget == |code|
      ensures Bounded(0, old(freereg), st)
    {
      hide IsList;
      ghost var p, lt, here := Pr(), lasttarget, js;
      if b {
        :- PatchToHere(e.t, e.ts);
        FellHere(g, p, lt, here, e.ts, e.f, e.fs, Pr(), b);
        e.t, e.ts := NO_JUMP, [];
      } else {
        :- PatchToHere(e.f, e.fs);
        FellHere(g, p, lt, here, e.fs, e.t, e.ts, Pr(), b);
        e.f, e.fs := NO_JUMP, [];
      }
      return Done;
    }

    /** A constant descriptor other than nil and false is true. */
    ghost predicate TrueConst(e: ExpDesc)
      reads this, e
    {
      e.k.VK? ==> e.k.index < |k| && k[e.k.index].Str?
    }

    method InvertJump(e: ExpDesc)
      requires e.k.VJMP? && 1 <= e.k.jump < |code| && code[e.k.jump - 1].CMP?
      modifies this`code
      ensures code == old(code)[e.k.jump - 1 := old(code)[e.k.jump - 1].(want := !old(code)[e.k.jump - 1].want)]
    {
      var i := code[e.k.jump - 1];
      code := code[e.k.jump - 1 := i.(want := !i.want)];
    }

    /** The comparison at hand becomes a test, inverted when its jump is taken on false. */
    method TestCompare(e: ExpDesc, cond: bool, ghost g: Goal) returns (pc: int)
      requires Inv(g, e) && e.k.VJMP?
      modifies this`code
      ensures Tested(g, e, pc, cond) && Kept(old(code), code, old(Held(e)))
    {
      hide FuncState.AtLimit;
      ghost var p := Pr();
      if !cond {
        InvertJump(e);
      }
      CompareTested(g, p, lasttarget, e.k.jump, e.t, e.ts, e.f, e.fs, Pr(), cond);
      return e.k.jump;
    }

    /** A constant whose truth is known needs no test. */
    lemma KnownTruth(g: Goal, e: ExpDesc, b: bool)
      requires Inv(g, e) && TrueConst(e)
      requires if b then e.k.VK? || e.k.VKNUM? || e.k.VTRUE? else e.k.VNIL? || e.k.VFALSE?
      ensures At(g, e, Cond(b))
    {
      PendingLists(e);
      Restage(g, Pr(), Elems(js), Val(e.k), Elems(e.ts), Elems(e.fs), Pr(), Cond(b));
    }

    /** Test the value of `e` and leave through a jump in the list of `cond` when it holds. */
    method LeaveIf(e: ExpDesc, cond: bool, ghost g: Goal) returns (st: Status)
      requires Inv(g, e) && Temp(g, e) && !IsVar(e)
      modifies this, e
      ensures st.Done? ==> At(g, e, Cond(!cond)) && freereg == g.free0
      ensures st.Done? ==> nactvar == old(nactvar) && old(k) <= k && Kept(old(code), code, old(Held(e)))
      ensures Bounded(3, g.free0 + 1, st)
    {
      hide Described, IsList, Kept;
      var pc;
      if e.k.VJMP? {
        pc := TestCompare(e, cond, g);
      } else {
        pc :- JumpOnCond(e, cond, g);
      }
      ghost var c := code;
      :- JoinJump(e, pc, cond, g);
      KeptTrans(old(code), c, code, old(Held(e)), old(Held(e)));
      return Done;
    }

    /** The switch of luaK_goiftrue (`b`) and luaK_goiffalse: no jump for a known constant. */
    method LeaveUnless(e: ExpDesc, b: bool, ghost g: Goal) returns (st: Status)
      requires Inv(g, e) && Temp(g, e) && !IsVar(e) && TrueConst(e)
      modifies this, e
      ensures st.Done? ==> At(g, e, Cond(b)) && freereg == g.free0
      ensures st.Done? ==> nactvar == old(nactvar) && old(k) <= k && Kept(old(code), code, old(Held(e)))
      ensures Bounded(3, g.free0 + 1, st)
    {
      if (if b then e.k.VK? || e.k.VKNUM? || e.k.VTRUE? else e.k.VNIL? || e.k.VFALSE?) {
        KnownTruth(g, e, b);
        return Done;
      }
      st := LeaveIf(e, !b, g);
    }

    /** A condition of which one list has been patched to here. */
    lemma CondBranches(g: Goal, e: ExpDesc, b: bool)
      requires At(g, e, Cond(b)) && if b then e.ts == [] else e.fs == []
      ensures Branches(g, Pr(), Elems(js), b, Elems(if b then e.fs else e.ts))
    {
      assert Elems([]) == {};
      ConditionExact(g, Pr(), Elems(js), b, Elems(if b then e.fs else e.ts));
    }

    /** luaK_goiftrue: control falls through exactly when the expression is true, otherwise
        it leaves through the false list. */
    method GoIfTrue(e: ExpDesc, ghost g: Goal) returns (st: Status)
      requires Inv(g, e) && Temp(g, e) && TrueConst(e)
      modifies this, e
      ensures st.Done? ==> At(g, e, Cond(true)) && e.ts == [] && freereg == g.free0
      ensures st.Done? ==> Branches(g, Pr(), Elems(js), true, Elems(e.fs))
      ensures st.Done? ==> nactvar == old(nactvar) && old(k) <= k && Kept(old(code), code, old(Held(e)))
      ensures Bounded(4, g.free0 + 1, st)
    {
      hide CodeOk, IsList, Described, ConstsOk, FuncState.AtLimit;
      :- DischargeVars(e, g);
      :- LeaveUnless(e, true, g);
      :- FallHere(e, true, g);
      CondBranches(g, e, true);
      return Done;
    }

    /** luaK_goiffalse: the dual. */
    method GoIfFalse(e: ExpDesc, ghost g: Goal) returns (st: Status)
      requires Inv(g, e) && Temp(g, e) && TrueConst(e)
      modifies this, e
      ensures st.Done? ==> At(g, e, Cond(false)) && e.fs == [] && freereg == g.free0
      ensures st.Done? ==> Branches(g, Pr(), Elems(js), false, Elems(e.ts))
      ensures st.Done? ==> nactvar == old(nactvar) && old(k) <= k && Kept(old(code), code, old(Held(e)))
      ensures Bounded(4, g.free0 + 1, st)
    {
      hide CodeOk, IsList, Described, ConstsOk, FuncState.AtLimit;
      :- DischargeVars(e, g);
      :- LeaveUnless(e, false, g);
      :- FallHere(e, false, g);
      CondBranches(g, e, false);
      return Done;
    }

    // -------------------------------------------------------------- not

    /** Interchange the lists and strip their values. */
    method SwapLists(e: ExpDesc)
      requires IsList(code, e.t, e.ts) && IsList(code, e.f, e.fs)
      modifies this`code, e`t, e`f, e`ts, e`fs
      ensures e.t == old(e.f) && e.f == old(e.t) && e.ts == old(e.fs) && e.fs == old(e.ts)
      ensures |code| == |old(code)|
      ensures forall i :: 0 <= i < |code| ==> code[i] == StripAt(old(code), Elems(e.ts) + Elems(e.fs), i)
    {
      ghost var c := code;
      e.t, e.f := e.f, e.t;
      e.ts, e.fs := e.fs, e.ts;
      RemoveValues(e.f, e.fs);
      ghost var c1 := code;
      StrippedList(c, c1, Elems(e.fs), e.t, e.ts);
      RemoveValues(e.t, e.ts);
      forall i | 0 <= i < |code| ensures code[i] == StripAt(c, Elems(e.ts) + Elems(e.fs), i) {
        assert c1[i] == StripAt(c, Elems(e.fs), i);
      }
    }

    /** codenot of a constant. */
    method NotConst(e: ExpDesc, ghost g: Goal)
      requires Inv(g, e) && TrueConst(e) && (e.k.VNIL? || e.k.VFALSE? || e.k.VTRUE? || e.k.VK? || e.k.VKNUM?)
      modifies this`code, e
      ensures Inv(NotGoal(g), e) && Steady(e) && (e.k.VTRUE? || e.k.VFALSE?) && |code| == |old(code)|
    {
      hide Described, CodeOk, IsList, ConstsOk, Pending, Elems;
      ghost var p, k0 := Pr(), e.k;
      PendingLists(e);
      e.k := if e.k.VNIL? || e.k.VFALSE? then VTRUE else VFALSE;
      SwapLists(e);
      NotConstant(g, p, lasttarget, js, jpc, e.f, e.fs, e.t, e.ts, k0, Pr(), e.k);
    }

    /** codenot of a comparison. */
    method NotCompare(e: ExpDesc, ghost g: Goal)
      requires Inv(g, e) && e.k.VJMP?
      modifies this`code, e
      ensures Inv(NotGoal(g), e) && Steady(e) && e.k == old(e.k) && |code| == |old(code)|
    {
      hide Described, CodeOk, IsList, Kept, ConstsOk, Pending, StageOk, Elems;
      ghost var p := Pr();
      NoList(code);
      CompareShape(p, e.k.jump);
      PendingLists(e);
      InvertJump(e);
      ghost var p1 := Pr();
      FlippedLists(p, lasttarget, e.k.jump, e.t, e.ts, e.f, e.fs, p1);
      SwapLists(e);
      NotCompared(g, p, lasttarget, e.f, e.fs, e.t, e.ts, e.k.jump, p1, Pr());
      assert e.Mine() == old(e.Mine()) == Elems(e.fs) + Elems(e.ts) + {e.k.jump as int};
      assert Held(e) == p.pend - Elems(e.fs) - Elems(e.ts) - {e.k.jump as int};
    }

    /** codenot of a value that needs a register. */
    method NotValue(e: ExpDesc, ghost g: Goal) returns (st: Status)
      requires Inv(g, e) && Temp(g, e) && (e.k.VRELOCABLE? || e.k.VNONRELOC?)
      modifies this, e
      ensures st.Done? ==> Inv(NotGoal(g), e) && Steady(e) && e.k.VRELOCABLE? && freereg == g.free0
      ensures Bounded(2, g.free0 + 1, st)
    {
      hide Described, CodeOk, IsList, ConstsOk;
      :- Discharge2AnyReg(e, g);
      FreeExp(e);
      st := NotRegister(e, g);
    }

    method NotRegister(e: ExpDesc, ghost g: Goal) returns (st: Status)
      requires Inv(g, e) && e.k.VNONRELOC?
      modifies this`code, this`jpc, this`js, this`pend, e
      ensures st.Done? ==> Inv(NotGoal(g), e) && Steady(e) && e.k.VRELOCABLE?
      ensures Bounded(1, old(freereg), st)
    {
      hide Described, CodeOk, IsList, Kept, ConstsOk, Pending, FuncState.AtLimit, Elems;
      ghost var p, here, lt := Pr(), js, lasttarget;
      var reg: Reg := e.k.reg;
      PendingLists(e);
      assert ListsOk() by { PendAll(); }
      :- Code(NOTOP(0, reg));
      AfterEmit(p.c, p.pend, lt, here, e.t, e.ts, e.f, e.fs, NOTOP(0, reg), code);
      ghost var p1 := Pr();
      e.k := VRELOCABLE(|code| - 1);
      SwapLists(e);
      NotLoaded(g, p, lt, here, e.f, e.fs, e.t, e.ts, reg, p1, Pr());
      assert e.Mine() == old(e.Mine()) == Elems(e.fs) + Elems(e.ts);
      assert Held(e) == p.pend - Elems(here) - Elems(e.fs) - Elems(e.ts);
      return Done;
    }

    lemma PendAll()
      requires Valid()
      ensures ListsOk() && Pending(Pr(), Elems(js))
    {
    }

    /** codenot */
    method CodeNot(e: ExpDesc, ghost g: Goal) returns (st: Status)
      requires Inv(g, e) && Temp(g, e) && TrueConst(e)
      modifies this, e
      ensures st.Done? ==> Inv(NotGoal(g), e) && Temp(NotGoal(g), e) && Steady(e) && TrueConst(e)
      ensures Bounded(3, g.free0 + 1, st)
    {
      hide Described, CodeOk, IsList, ConstsOk;
      :- DischargeVars(e, g);
      if e.k.VJMP? {
        NotCompare(e, g);
      } else if e.k.VRELOCABLE? || e.k.VNONRELOC? {
        :- NotValue(e, g);
      } else {
        NotConst(e, g);
      }
      return Done;
    }

    // -------------------------------------------------------------- exp2reg

    /** exp2reg puts the jump of a comparison into the true list: falling through means false. */
    method JoinCompare(e: ExpDesc, ghost g: Goal) returns (st: Status)
      requires Inv(g, e) && e.k.VJMP?
      modifies this`code, e`t, e`ts
      ensures st.Done? ==> At(g, e, Val(VFALSE)) && js == [] && Rest(e) == old(Held(e)) && Kept(old(code), code, old(Held(e)))
      ensures st.Done? ==> e.k.jump in e.ts && !Valued(code, e.k.jump)
      ensures Bounded(0, old(freereg), st)
    {
      hide Described, CodeOk, Kept, ConstsOk, Pending, StageOk, IsList, FuncState.AtLimit, WellFormed;
      ghost var p := Pr();
      assert Elems(js) == {};
      CompareShape(p, e.k.jump);
      PendingLists(e);
      SingleJump(code, e.k.jump);
      e.t :- Concat(e.t, e.k.jump, e.ts, [e.k.jump]);
      CompareJoined(g, p, lasttarget, e.k.jump, e.ts, e.f, e.fs, Pr());
      assert old(Held(e)) == p.pend - Elems(e.ts) - Elems(e.fs) - {e.k.jump as int};
      e.ts := e.ts + [e.k.jump];
      assert Rest(e) == old(Held(e));
      return Done;
    }

    method CodeLabel(a: Reg, b: bool, skip: bool) returns (st: Status, pc: int)
      requires ListsOk() && js == []
      modifies this`code, this`jpc, this`js, this`pend, this`lasttarget
      ensures st.Done? ==> code == old(code) + [LOADBOOL(a, b, skip)] && pc == |old(code)| == lasttarget
      ensures st.Done? ==> jpc == NO_JUMP && js == [] && pend == old(pend)
      ensures Bounded(1, old(freereg), st)
    {
      pc := GetLabel();
      assert Elems(js) == {} && Patch(code, {}, |code|, NO_REG, |code|) == code;
      st := Code(LOADBOOL(a, b, skip));
    }

    /** exp2reg: the loads of false and true, jumped over unless control falls into them. */
    method EmitBools(over: bool, reg: Reg) returns (st: Status, pf: int, pt: int)
      requires ListsOk() && (!over ==> js == [])
      modifies this`code, this`jpc, this`js, this`pend, this`lasttarget
      ensures st.Done? && over ==> |code| == |old(code)| + 3 && code[..|old(code)|] == old(code) && code[|old(code)|].JMP?
      ensures st.Done? && over ==> js == [|old(code)|] + old(js) && pend == old(pend) + {|old(code)|}
      ensures st.Done? && !over ==> |code| == |old(code)| + 2 && code[..|old(code)|] == old(code)
      ensures st.Done? && !over ==> js == [] && pend == old(pend)
      ensures st.Done? ==> IsList(code, jpc, js)
      ensures st.Done? ==> pf == |code| - 2 && pt == |code| - 1 && code[pf] == LOADBOOL(reg, false, true) && code[pt] == LOADBOOL(reg, true, false)
      ensures Bounded(3, old(freereg), st)
    {
      hide IsList, FuncState.AtLimit;
      pf, pt := NO_JUMP, NO_JUMP;
      ghost var c := code;
      var fj := NO_JUMP;
      NoList(c);
      ghost var l: seq<int> := [];
      if over {
        fj, l :- Jump();
        assert IsList(code, fj, l);
      }
      ghost var c1 := code;
      if over { NoList(code); }
      pf :- CodeLabel(reg, false, true);
      NoList(code);
      pt :- CodeLabel(reg, true, false);
      assert code == c1 + [LOADBOOL(reg, false, true), LOADBOOL(reg, true, false)];
      ListKept(c1, code, fj, l);
      NoList(code);
      :- PatchToHere(fj, l);
      assert code[..|c|] == c1[..|c|] == c;
      return Done, pf, pt;
    }

    /** Both lists lead to the end of the code, or to the Boolean loads. */
    method PatchBoth(e: ExpDesc, reg: Reg, pf: int, pt: int) returns (st: Status)
      requires IsList(code, e.t, e.ts) && IsList(code, e.f, e.fs) && Elems(e.ts) !! Elems(e.fs)
      requires forall j :: j in e.ts ==> Valued(code, j) || pt >= 0
      requires forall j :: j in e.fs ==> Valued(code, j) || pf >= 0
      requires pt <= |code| && pf <= |code|
      modifies this`code, this`pend, this`lasttarget
      ensures st.Done? ==> lasttarget == |code| == |old(code)| && pend == old(pend) - Elems(e.fs) - Elems(e.ts)
      ensures st.Done? ==> code == Patch(Patch(old(code), Elems(e.fs), |code|, reg, pf), Elems(e.ts), |code|, reg, pt)
      ensures Bounded(0, old(freereg), st)
    {
      ghost var c := code;
      var final := GetLabel();
      :- PatchListAux(e.f, final, reg, pf, e.fs);
      PatchedOther(c, e.f, e.fs, e.t, e.ts, final, reg, pf);
      :- PatchListAux(e.t, final, reg, pt, e.ts);
      return Done;
    }

    /** need_value of either list. */
    method NeedBools(e: ExpDesc) returns (b: bool)
      requires IsList(code, e.t, e.ts) && IsList(code, e.f, e.fs)
      ensures b <==> exists j :: j in Elems(e.ts) + Elems(e.fs) && !Valued(code, j)
    {
      b := NeedValue(e.t, e.ts);
      if b {
        assert exists j :: j in e.ts && j in Elems(e.ts) + Elems(e.fs) && !Valued(code, j);
      } else {
        b := NeedValue(e.f, e.fs);
        if b { assert exists j :: j in e.fs && j in Elems(e.ts) + Elems(e.fs) && !Valued(code, j); }
      }
    }

    /** The end of exp2reg when the Boolean loads are needed. */
    method ResolveWithBools(e: ExpDesc, reg: nat, ghost g: Goal) returns (st: Status)
      requires e.k == VNONRELOC(reg) || (e.k.VJMP? && js == [])
      requires At(g, e, if e.k.VJMP? then Val(VFALSE) else Val(e.k))
      requires g.free0 <= reg < freereg
      modifies this`code, this`jpc, this`js, this`pend, this`lasttarget
      ensures st.Done? ==> Valid() && pend - Elems(js) == old(Rest(e)) && Kept(old(code), code, old(Rest(e)))
      ensures st.Done? ==> Described(g, Pr(), Elems(js), Val(VNONRELOC(reg)), {}, {})
      ensures Bounded(3, old(freereg), st)
    {
      hide Described, ConstsOk, CodeOk, StageOk, IsList, Kept, Valued, BoolLoads, Pending, PatchAt;
      ghost var p, lt, here := Pr(), lasttarget, js;
      ghost var stage := if e.k.VJMP? then Val(VFALSE) else Val(e.k);
      assert ListsOk() by { PendAll(); }
      var pf, pt;
      pf, pt :- EmitBools(!e.k.VJMP?, reg);
      ghost var tail, c := code[|p.c|..], code;
      assert c == p.c + tail;
      assert IsList(c, e.f, e.fs) && IsList(c, e.t, e.ts) by { ListsExtended(p.c, tail, e.t, e.ts, e.f, e.fs); }
      :- PatchBoth(e, reg, pf, pt);
      ResolvedBools(g, p, lt, here, stage, e.t, e.ts, e.f, e.fs, tail, Pr(), jpc, js, reg, pf);
      return Done;
    }

    /** The end of exp2reg: every jump of the lists is given its target. */
    method ResolveAll(e: ExpDesc, reg: nat, ghost g: Goal) returns (st: Status)
      requires e.k == VNONRELOC(reg) || (e.k.VJMP? && js == [] && exists j :: j in e.ts && !Valued(code, j))
      requires At(g, e, if e.k.VJMP? then Val(VFALSE) else Val(e.k))
      requires g.free0 <= reg < freereg
      modifies this`code, this`jpc, this`js, this`pend, this`lasttarget
      ensures st.Done? ==> Valid() && pend - Elems(js) == old(Rest(e)) && Kept(old(code), code, old(Rest(e)))
      ensures st.Done? ==> Described(g, Pr(), Elems(js), Val(VNONRELOC(reg)), {}, {})
      ensures Bounded(3, old(freereg), st)
    {
      hide Described, ConstsOk, CodeOk, StageOk, IsList, Kept, Valued;
      var b := NeedBools(e);
      if b {
        st := ResolveWithBools(e, reg, g);
        return;
      }
      ghost var p, lt := Pr(), lasttarget;
      assert !e.k.VJMP?;
      :- PatchBoth(e, reg, NO_JUMP, NO_JUMP);
      ResolvedPlain(g, p, lt, js, e.t, e.ts, e.f, e.fs, Pr(), jpc, reg);
      return Done;
    }

    /** exp2reg: the value of the expression ends up in `reg`, and no jumps are left. */
    method Exp2Reg(e: ExpDesc, reg: nat, ghost g: Goal) returns (st: Status)
      requires Inv(g, e) && !IsVar(e)
      requires g.free0 <= reg < freereg
      modifies this, e
      ensures st.Done? ==> Inv(g, e) && Steady(e) && e.k == VNONRELOC(reg) && !e.HasJumps() && freereg == old(freereg)
      ensures Bounded(4, old(freereg), st)
    {
      hide Described, ConstsOk, CodeOk, StageOk, IsList, Valued;
      :- Discharge2Reg(e, reg, g);
      st := SettleInReg(e, reg, g);
    }

    /** exp2reg after the load. */
    method SettleInReg(e: ExpDesc, reg: nat, ghost g: Goal) returns (st: Status)
      requires Inv(g, e) && (e.k == VNONRELOC(reg) || e.k.VJMP?)
      requires g.free0 <= reg < freereg
      modifies this`code, this`jpc, this`js, this`pend, this`lasttarget, e
      ensures st.Done? ==> Inv(g, e) && Steady(e) && e.k == VNONRELOC(reg) && !e.HasJumps()
      ensures Bounded(3, old(freereg), st)
    {
      hide Described, ConstsOk, CodeOk, IsList, Valued, StageOk;
      if e.k.VJMP? {
        :- JoinCompare(e, g);
      }
      st := SettleLists(e, reg, g);
    }

    method SettleLists(e: ExpDesc, reg: nat, ghost g: Goal) returns (st: Status)
      requires e.k == VNONRELOC(reg) || (e.k.VJMP? && js == [] && exists j :: j in e.ts && !Valued(code, j))
      requires At(g, e, if e.k.VJMP? then Val(VFALSE) else Val(e.k))
      requires g.free0 <= reg < freereg
      modifies this`code, this`jpc, this`js, this`pend, this`lasttarget, e
      ensures st.Done? ==> Inv(g, e) && e.k == VNONRELOC(reg) && !e.HasJumps()
      ensures st.Done? ==> Held(e) == old(Rest(e)) && Kept(old(code), code, old(Rest(e)))
      ensures Bounded(3, old(freereg), st)
    {
      hide Described, ConstsOk, CodeOk, IsList, Valued, Kept, FuncState.AtLimit;
      HeadsDiffer(code, e.t, e.ts, e.f, e.fs);
      KeptSame(code, Rest(e));
      assert Elems([]) == {};
      if e.HasJumps() {
        :- ResolveAll(e, reg, g);
      }
      e.t, e.f := NO_JUMP, NO_JUMP;
      e.ts, e.fs := [], [];
      e.k := VNONRELOC(reg);
      NoList(code);
      assert Held(e) == old(Rest(e));
      return Done;
    }

    /** luaK_exp2nextreg: the value goes to the next free register. */
    method Exp2NextReg(e: ExpDesc, ghost g: Goal) returns (st: Status)
      requires Inv(g, e) && Temp(g, e)
      modifies this, e
      ensures st.Done? ==> Inv(g, e) && Temp(g, e) && Steady(e) && e.k == VNONRELOC(g.free0) && freereg == g.free0 + 1 && !e.HasJumps()
      ensures Bounded(5, g.free0 + 1, st)
    {
      hide Described, ConstsOk, CodeOk, StageOk, IsList, Valued, Elems;
      :- DischargeVars(e, g);
      FreeExp(e);
      :- ReserveRegs(1);
      :- Exp2Reg(e, freereg - 1, g);
      return Done;
    }

    /** luaK_exp2anyreg */
    method Exp2AnyReg(e: ExpDesc, ghost g: Goal) returns (st: Status, reg: nat)
      requires Inv(g, e) && Temp(g, e)
      modifies this, e
      ensures st.Done? ==> Inv(g, e) && Temp(g, e) && Steady(e) && e.k == VNONRELOC(reg) && !e.HasJumps()
      ensures old(e.k.VNONRELOC? && !e.HasJumps()) ==> st.Done? && Same(e) && e.k == old(e.k)
      ensures Bounded(6, g.free0 + 1, st)
    {
      hide Described, ConstsOk, CodeOk, StageOk, IsList, Valued;
      reg := 0;
      :- DischargeVars(e, g);
      if e.k.VNONRELOC? {
        if !e.HasJumps() {
          return Done, e.k.reg;
        }
        if e.k.reg >= nactvar {
          :- Exp2Reg(e, e.k.reg, g);
          return Done, e.k.reg;
        }
      }
      :- Exp2NextReg(e, g);
      return Done, e.k.reg;
    }

    /** Nothing about the code or the registers changed. */
    twostate predicate Same(e: ExpDesc)
      reads this, e
    {
      && code == old(code) && jpc == old(jpc) && js == old(js) && pend == old(pend) && k == old(k) && h == old(h)
      && freereg == old(freereg) && lasttarget == old(lasttarget) && nactvar == old(nactvar) && maxstacksize == old(maxstacksize)
      && e.t == old(e.t) && e.f == old(e.f) && e.ts == old(e.ts) && e.fs == old(e.fs)
    }

    /** luaK_exp2val */
    method Exp2Val(e: ExpDesc, ghost g: Goal) returns (st: Status)
      requires Inv(g, e) && Temp(g, e)
      modifies this, e
      ensures st.Done? ==> Inv(g, e) && Temp(g, e) && Steady(e) && !e.HasJumps() && !IsVar(e)
      ensures old(!e.HasJumps() && !IsVar(e)) ==> st.Done? && Same(e) && e.k == old(e.k)
      ensures Bounded(6, g.free0 + 1, st)
    {
      hide Described, ConstsOk, CodeOk, StageOk, IsList, Valued;
      if e.HasJumps() {
        var _ :- Exp2AnyReg(e, g);
      } else {
        :- DischargeVars(e, g);
      }
      return Done;
    }

    /** An operand that needs no code: a register, or a constant an instruction can name. */
    predicate AlreadyRK(e: ExpDesc)
      reads this, e
    {
      !e.HasJumps() && (e.k.VNONRELOC? || (e.k.VK? && e.k.index <= MAXINDEXRK))
    }

    /** A constant descriptor moves to the constant table. */
    method ConstToK(e: ExpDesc, ghost g: Goal) returns (st: Status)
      requires Inv(g, e) && (e.k.VNIL? || e.k.VTRUE? || e.k.VFALSE? || e.k.VKNUM?)
      modifies this`k, this`h, e`k
      ensures st.Done? ==> Inv(g, e) && Steady(e) && e.k.VK? && e.k.index <= |old(k)| && e.k.index < |k|
      ensures Bounded(1, old(freereg), st)
    {
      hide CodeOk, IsList, Described, StageOk, Elems;
      PendingLists(e);
      var i;
      match e.k {
        case VNIL => i :- NilK();
        case VKNUM(n) => i :- NumberK(n);
        case VTRUE => i :- BoolK(true);
        case VFALSE => i :- BoolK(false);
      }
      Restage(g, Prog(code, old(k), pend), Elems(js), Val(e.k), Elems(e.ts), Elems(e.fs), Pr(), Val(VK(i)));
      e.k := VK(i);
      return Done;
    }

    /** What an operand code denotes. */
    ghost predicate Denotes(e: ExpDesc, rk: RK)
      reads this, e
    {
      && OperandOk(Pr(), e.k)
      && (e.k.VK? ==> e.k.index <= MAXINDEXRK && rk == BITRK + e.k.index)
      && (e.k.VNONRELOC? ==> rk == e.k.reg)
      && !e.k.VKNUM?
    }

    /** luaK_exp2RK */
    method Exp2RK(e: ExpDesc, ghost g: Goal) returns (st: Status, rk: RK)
      requires Inv(g, e) && Temp(g, e)
      modifies this, e
      ensures st.Done? ==> Inv(g, e) && Temp(g, e) && Steady(e) && AlreadyRK(e) && Denotes(e, rk)
      ensures old(AlreadyRK(e)) ==> st.Done? && Same(e) && e.k == old(e.k)
      ensures Bounded(12, g.free0 + 1, st)
    {
      hide Described, ConstsOk, CodeOk, IsList, Valued;
      rk := 0;
      :- Exp2Val(e, g);
      if e.k.VKNUM? || e.k.VTRUE? || e.k.VFALSE? || e.k.VNIL? {
        if |k| <= MAXINDEXRK {
          :- ConstToK(e, g);
          return Done, BITRK + e.k.index;
        }
      } else if e.k.VK? && e.k.index <= MAXINDEXRK {
        return Done, BITRK + e.k.index;
      }
      var reg :- Exp2AnyReg(e, g);
      return Done, reg;
    }

    // -------------------------------------------------------------- operators

    /** The first operand of a binary operator since `p1`, where the second one started: a
        numeral, a constant in range, or a register in use. */
    ghost predicate First(g: Goal, e: ExpDesc, p1: Prog, here1: set<int>, free1: nat)
      reads this, e
    {
      && g.S == S && g.np == np && nactvar <= g.free0 <= free1
      && e.t == e.f == NO_JUMP && e.ts == e.fs == []
      && OperandOk(p1, e.k)
      && (e.k.VK? ==> e.k.index <= MAXINDEXRK)
      && (e.k.VKNUM? ==> !S.isNaN(e.k.nval))
      && (if e.k.VNONRELOC? && e.k.reg >= nactvar then e.k.reg == g.free0 && free1 == g.free0 + 1 else free1 == g.free0)
      && p1.k <= k && here1 <= p1.pend
      && g.p0.pend - g.here0 == p1.pend - here1
      && Described(g, p1, here1, Val(e.k), {}, {})
    }

    /** The second operand, compiled after the first. */
    ghost predicate Second(g: Goal, e1: ExpDesc, e2: ExpDesc, p1: Prog, here1: set<int>, free1: nat, src2: Expr)
      reads this, e1, e2
    {
      && e1 != e2 && First(g, e1, p1, here1, free1)
      && Inv(SubGoal(g, p1, here1, free1, src2), e2) && Temp(SubGoal(g, p1, here1, free1, src2), e2)
      && WellFormed(S, nactvar, src2)
    }

    /** constfolding, for two operands. */
    method ConstFolding(op: ArithOp, e1: ExpDesc, e2: ExpDesc) returns (b: bool)
      requires op != UNM && op != LEN && e1 != e2
      modifies e1`k
      ensures b ==> old(e1.IsNumeral()) && e2.IsNumeral() && e1.k == VKNUM(S.num(op, old(e1.k).nval, e2.k.nval)) && !S.isNaN(e1.k.nval)
      ensures !b ==> e1.k == old(e1.k)
    {
      if !e1.IsNumeral() || !e2.IsNumeral() {
        return false;
      }
      var v1, v2 := e1.k.nval, e2.k.nval;
      if (op == DIV || op == MOD) && v2 == 0.0 {
        return false;
      }
      var r := S.num(op, v1, v2);
      if S.isNaN(r) {
        return false;
      }
      e1.k := VKNUM(r);
      return true;
    }

    /** The operand code of a descriptor that is already in RK form. */
    function RKCode(e: ExpDesc): (rk: RK)
      requires AlreadyRK(e) && OperandOk(Pr(), e.k)
      reads this, e
      ensures Denotes(e, rk)
    {
      if e.k.VK? then BITRK + e.k.index else e.k.reg
    }

    /** Free both operands, the later register first. */
    method FreeOperands(e1: ExpDesc, e2: ExpDesc, o1: RK, o2: RK, ghost free0: nat)
      requires (e1.k.VNONRELOC? ==> o1 == e1.k.reg < BITRK) && (e2.k.VNONRELOC? ==> o2 == e2.k.reg < BITRK)
      requires (!e1.k.VNONRELOC? ==> o1 >= BITRK) && (!e2.k.VNONRELOC? ==> o2 >= BITRK)
      requires nactvar <= free0
      requires TempsInUse(e1, e2, free0)
      modifies this`freereg
      ensures freereg == free0
    {
      if o1 > o2 {
        FreeExp(e1);
        FreeExp(e2);
      } else {
        FreeExp(e2);
        FreeExp(e1);
      }
    }

    /** The temporaries of two operands are the topmost registers, in either order. */
    ghost predicate TempsInUse(e1: ExpDesc, e2: ExpDesc, free0: nat)
      reads this, e1, e2
    {
      var t1, t2 := e1.k.VNONRELOC? && e1.k.reg >= nactvar, e2.k.VNONRELOC? && e2.k.reg >= nactvar;
      if t1 && t2 then freereg == free0 + 2 && {e1.k.reg, e2.k.reg} == {free0, free0 + 1}
      else if t1 then freereg == free0 + 1 && e1.k.reg == free0
      else if t2 then freereg == free0 + 1 && e2.k.reg == free0
      else freereg == free0
    }

    /** Both operands denote their values here. */
    ghost predicate Ready(g: Goal, op: BinOp, src2: Expr, e1: ExpDesc, e2: ExpDesc)
      reads this, e1, e2
    {
      && e1 != e2 && Valid() && !op.AND? && !op.OR?
      && g.S == S && g.np == np && nactvar <= g.free0
      && e1.t == e1.f == e2.t == e2.f == NO_JUMP && e1.ts == e1.fs == e2.ts == e2.fs == []
      && OperandOk(Pr(), e1.k) && OperandOk(Pr(), e2.k)
      && g.p0.pend - g.here0 == pend - Elems(js)
      && Described(g.(src := Binary(op, g.src, src2)), Pr(), Elems(js), Oper(op, e1.k, e2.k), {}, {})
    }

    /** Bring both operands into RK form, the second one first. */
    method BothToRK(e1: ExpDesc, e2: ExpDesc, ghost op: BinOp, ghost g: Goal, ghost p1: Prog, ghost here1: set<int>, ghost free1: nat, ghost src2: Expr)
      returns (st: Status, o1: RK, o2: RK)
      requires Second(g, e1, e2, p1, here1, free1, src2) && !op.AND? && !op.OR?
      modifies this, e1, e2
      ensures st.Done? ==> Ready(g, op, src2, e1, e2) && Denotes(e1, o1) && Denotes(e2, o2) && TempsInUse(e1, e2, g.free0)
      ensures st.Done? ==> nactvar == old(nactvar) && old(k) <= k && Kept(old(code), code, old(Held(e2))) && pend - Elems(js) == old(Held(e2))
      ensures Bounded(24, free1 + 2, st)
    {
      hide Described, ConstsOk, CodeOk, IsList, Valued, StageOk;
      o1, o2 := 0, 0;
      ghost var g2 := SubGoal(g, p1, here1, free1, src2);
      o2 :- Exp2RK(e2, g2);
      ghost var c := code;
      HeadsDiffer(code, e2.t, e2.ts, e2.f, e2.fs);
      assert Elems(e2.ts) == {};
      assert Held(e2) == pend - Elems(js);
      o1 :- FirstAfterSecond(e1, e2, op, o2, g, p1, here1, free1, src2);
      KeptTrans(old(code), c, code, old(Held(e2)), old(Held(e2)));
      return Done, o1, o2;
    }

    /** luaK_exp2RK of the first operand after the second: only a numeral is left to do. */
    method FirstAfterSecond(e1: ExpDesc, e2: ExpDesc, ghost op: BinOp, ghost o2: RK, ghost g: Goal, ghost p1: Prog, ghost here1: set<int>, ghost free1: nat, ghost src2: Expr)
      returns (st: Status, o1: RK)
      requires Second(g, e1, e2, p1, here1, free1, src2) && !op.AND? && !op.OR?
      requires AlreadyRK(e2) && Denotes(e2, o2) && e2.ts == e2.fs == [] && e2.t == NO_JUMP
      modifies this, e1
      ensures st.Done? ==> Ready(g, op, src2, e1, e2) && Denotes(e1, o1) && Denotes(e2, o2) && TempsInUse(e1, e2, g.free0)
      ensures st.Done? ==> nactvar == old(nactvar) && old(k) <= k && Kept(old(code), code, old(pend) - Elems(old(js)))
      ensures st.Done? ==> pend - Elems(js) == old(pend) - Elems(old(js))
      ensures Bounded(12, free1 + 2, st)
    {
      hide Described, ConstsOk, CodeOk, IsList, Valued, StageOk, FuncState.AtLimit, Elems, WellFormed;
      o1 := 0;
      ghost var p2, here2, free2, k1 := Pr(), Elems(js), freereg, e1.k;
      assert Elems(e2.ts) == Elems(e2.fs) == {};
      assert Held(e2) == pend - Elems(js);
      StartFirst(g, p1, p2, here2, free2, k1);
      if AlreadyRK(e1) {
        BothOperands(g, p1, here1, free1, k1, src2, p2, here2, free2, e2.k, Pr(), Elems(js), e1.k, op, nactvar);
        return Done, RKCode(e1);
      }
      ghost var g3 := SubGoal(g, p2, here2, free2, OperandExpr(p2, k1));
      NumeralAgain(g, g3, e1);
      o1 :- NumeralToRK(e1, g3);
      BothOperands(g, p1, here1, free1, k1, src2, p2, here2, free2, e2.k, Pr(), Elems(js), e1.k, op, nactvar);
      return Done, o1;
    }

    method NumeralToRK(e: ExpDesc, ghost g: Goal) returns (st: Status, rk: RK)
      requires Inv(g, e) && Temp(g, e) && e.ts == e.fs == [] && e.k.VKNUM?
      modifies this, e
      ensures st.Done? ==> Valid() && Temp(g, e) && Denotes(e, rk) && e.ts == e.fs == [] && e.t == e.f == NO_JUMP
      ensures st.Done? ==> nactvar == old(nactvar) && old(k) <= k && Kept(old(code), code, old(pend) - Elems(old(js)))
      ensures st.Done? ==> pend - Elems(js) == old(pend) - Elems(old(js))
      ensures st.Done? ==> Described(g, Pr(), Elems(js), Val(e.k), {}, {})
      ensures Bounded(12, g.free0 + 1, st)
    {
      hide Described, ConstsOk, CodeOk, IsList, Valued, StageOk;
      rk := 0;
      assert Elems([]) == {};
      assert Held(e) == pend - Elems(js);
      rk :- Exp2RK(e, g);
      HeadsDiffer(code, e.t, e.ts, e.f, e.fs);
      assert Held(e) == pend - Elems(js);
      return Done, rk;
    }

    /** A numeral waits unharmed while the second operand is compiled. */
    lemma NumeralAgain(g: Goal, g3: Goal, e: ExpDesc)
      requires Valid() && e.k.VKNUM? && !S.isNaN(e.k.nval) && e.t == e.f == NO_JUMP && e.ts == e.fs == []
      requires g3 == SubGoal(g, Pr(), Elems(js), freereg, Const(Num(e.k.nval))) && g.S == S && g.np == np
      ensures Inv(g3, e) && Temp(g3, e)
    {
      NoList(code);
      assert Elems([]) == {};
      Restart(g, Pr(), Elems(js), freereg, e.k, Const(Num(e.k.nval)));
    }

    /** codearith: emit the operator with an open destination. */
    method EmitArith(op: ArithOp, e1: ExpDesc, e2: ExpDesc, o1: RK, o2: RK, ghost g: Goal, ghost src2: Expr) returns (st: Status)
      requires Ready(g, BArith(op), src2, e1, e2) && Denotes(e1, o1) && Denotes(e2, o2) && g.free0 <= freereg
      modifies this`code, this`jpc, this`js, this`pend, e1`k
      ensures st.Done? ==> Inv(BinGoal(g, BArith(op), src2), e1) && e1.k.VRELOCABLE?
      ensures st.Done? ==> Kept(old(code), code, old(pend) - Elems(old(js))) && Held(e1) == old(pend) - Elems(old(js))
      ensures Bounded(1, old(freereg), st)
    {
      hide Described, ConstsOk, CodeOk, IsList, Valued, FuncState.AtLimit, StageOk, Kept;
      ghost var p, lt, here := Pr(), lasttarget, js;
      assert ListsOk() && Pending(p, Elems(js)) by { PendAll(); }
      assert Elems([]) == {};
      NoList(code);
      :- Code(ARITH(op, 0, o1, o2));
      AfterEmit(p.c, p.pend, lt, here, NO_JUMP, [], NO_JUMP, [], ARITH(op, 0, o1, o2), code);
      ArithOpened(BinGoal(g, BArith(op), src2), p, Elems(here), op, e1.k, e2.k, o1, o2, Pr());
      e1.k := VRELOCABLE(|code| - 1);
      assert Held(e1) == old(pend) - Elems(old(js));
      return Done;
    }

    /** codearith for binary operators */
    method CodeArith(op: ArithOp, e1: ExpDesc, e2: ExpDesc, ghost g: Goal, ghost p1: Prog, ghost here1: set<int>, ghost free1: nat, ghost src2: Expr) returns (st: Status)
      requires Second(g, e1, e2, p1, here1, free1, src2) && op != UNM && op != LEN
      modifies this, e1, e2
      ensures st.Done? ==> Inv(BinGoal(g, BArith(op), src2), e1) && Temp(g, e1) && !e1.k.VK? && nactvar == old(nactvar) && old(k) <= k
      ensures st.Done? ==> Held(e1) == old(Held(e2)) && Kept(old(code), code, old(Held(e2)))
      ensures Bounded(25, free1 + 2, st)
    {
      hide Described, ConstsOk, CodeOk, IsList, Valued, StageOk, Kept, FuncState.AtLimit, WellFormed;
      var b := FoldArith(op, e1, e2, g, p1, here1, free1, src2);
      if b {
        return Done;
      }
      var o1, o2;
      o1, o2 :- BothToRK(e1, e2, BArith(op), g, p1, here1, free1, src2);
      FreeOperands(e1, e2, o1, o2, g.free0);
      ghost var c := code;
      :- EmitArith(op, e1, e2, o1, o2, g, src2);
      KeptTrans(old(code), c, code, old(Held(e2)), old(Held(e2)));
      return Done;
    }

    /** codearith when both operands are numerals. */
    method FoldArith(op: ArithOp, e1: ExpDesc, e2: ExpDesc, ghost g: Goal, ghost p1: Prog, ghost here1: set<int>, ghost free1: nat, ghost src2: Expr) returns (b: bool)
      requires Second(g, e1, e2, p1, here1, free1, src2) && op != UNM && op != LEN
      modifies e1`k
      ensures b ==> Inv(BinGoal(g, BArith(op), src2), e1) && Temp(g, e1) && !e1.k.VK? && Held(e1) == Held(e2) && Kept(code, code, Held(e2))
      ensures !b ==> e1.k == old(e1.k)
    {
      hide Described, ConstsOk, CodeOk, IsList, Valued, StageOk, Kept;
      ghost var k1 := e1.k;
      KeptSame(code, Held(e2));
      NoJumps(e2);
      PendAll();
      b := ConstFolding(op, e1, e2);
      if b {
        Folded(g, p1, here1, free1, k1, src2, Pr(), Elems(js), freereg, e2.k, op, nactvar, e1.k.nval);
        NoList(code);
      }
    }

    lemma NoJumps(e: ExpDesc)
      requires Valid() && Owns(e)
      ensures e.IsNumeral() ==> Elems(e.ts) == Elems(e.fs) == {} && Held(e) == pend - Elems(js) && e.ts == e.fs == []
    {
    }

    /** codecomp: emit the comparison and its jump. */
    method EmitCompare(t: Instr, ghost bop: BinOp, e1: ExpDesc, e2: ExpDesc, ghost o1: RK, ghost o2: RK, ghost g: Goal, ghost src2: Expr) returns (st: Status)
      requires Ready(g, bop, src2, e1, e2) && Denotes(e1, o1) && Denotes(e2, o2) && g.free0 <= freereg
      requires !bop.BArith? && t == CompareInstr(bop, o1, o2)
      modifies this`code, this`jpc, this`js, this`pend, e1`k
      ensures st.Done? ==> Inv(BinGoal(g, bop, src2), e1) && e1.k.VJMP?
      ensures st.Done? ==> Kept(old(code), code, old(pend) - Elems(old(js))) && Held(e1) == old(pend) - Elems(old(js))
      ensures Bounded(2, old(freereg), st)
    {
      hide Described, ConstsOk, CodeOk, IsList, Valued, StageOk, Kept;
      ghost var p, lt, here := Pr(), lasttarget, js;
      assert ListsOk() && Pending(p, Elems(js)) by { PendAll(); }
      assert Elems([]) == {};
      NoList(code);
      var j :- CondJump(t);
      AfterTest(p.c, p.pend, lt, here, NO_JUMP, [], NO_JUMP, [], t, code);
      CompareOpened(BinGoal(g, bop, src2), p, Elems(here), bop, e1.k, e2.k, o1, o2, t, Pr());
      e1.k := VJMP(j);
      assert Held(e1) == old(pend) - Elems(old(js));
      return Done;
    }

    /** codecomp */
    method CodeComp(op: CmpOp, cond: bool, ghost bop: BinOp, e1: ExpDesc, e2: ExpDesc, ghost g: Goal, ghost p1: Prog, ghost here1: set<int>, ghost free1: nat, ghost src2: Expr) returns (st: Status)
      requires Second(g, e1, e2, p1, here1, free1, src2) && AlreadyRK(e1)
      requires CompareOf(bop) == (op, cond) && !bop.BArith? && !bop.AND? && !bop.OR?
      modifies this, e1, e2
      ensures st.Done? ==> Inv(BinGoal(g, bop, src2), e1) && Temp(g, e1) && e1.k.VJMP? && nactvar == old(nactvar) && old(k) <= k
      ensures st.Done? ==> Held(e1) == old(Held(e2)) && Kept(old(code), code, old(Held(e2)))
      ensures Bounded(26, free1 + 2, st)
    {
      hide Described, ConstsOk, CodeOk, IsList, Valued, StageOk, Kept, Elems;
      var o1, o2;
      o1, o2 :- BothToRK(e1, e2, bop, g, p1, here1, free1, src2);
      FreeOperands(e1, e2, o1, o2, g.free0);
      ghost var c := code;
      var a, b, want := o1, o2, cond;
      if !cond && op != EQ {
        a, b, want := o2, o1, true;
      }
      :- EmitCompare(CMP(op, want, a, b), bop, e1, e2, o1, o2, g, src2);
      KeptTrans(old(code), c, code, old(Held(e2)), old(Held(e2)));
      return Done;
    }

    /** luaK_posfix for arithmetic and comparison operators. */
    method PosfixValue(op: BinOp, e1: ExpDesc, e2: ExpDesc, ghost g: Goal, ghost p1: Prog, ghost here1: set<int>, ghost free1: nat, ghost src2: Expr) returns (st: Status)
      requires Second(g, e1, e2, p1, here1, free1, src2) && !op.AND? && !op.OR?
      requires if op.BArith? then op.op != UNM && op.op != LEN else AlreadyRK(e1)
      modifies this, e1, e2
      ensures st.Done? ==> Inv(BinGoal(g, op, src2), e1) && Temp(g, e1) && !e1.k.VK? && nactvar == old(nactvar) && old(k) <= k
      ensures st.Done? ==> Held(e1) == old(Held(e2)) && Kept(old(code), code, old(Held(e2)))
      ensures Bounded(26, free1 + 2, st)
    {
      hide FuncState.Second, FuncState.Inv, FuncState.Held, FuncState.Temp, FuncState.AlreadyRK, FuncState.AtLimit, Kept;
      match op {
        case BArith(a) => st := CodeArith(a, e1, e2, g, p1, here1, free1, src2);
        case BEQ => st := CodeComp(EQ, true, op, e1, e2, g, p1, here1, free1, src2);
        case BNE => st := CodeComp(EQ, false, op, e1, e2, g, p1, here1, free1, src2);
        case BLT => st := CodeComp(LT, true, op, e1, e2, g, p1, here1, free1, src2);
        case BLE => st := CodeComp(LE, true, op, e1, e2, g, p1, here1, free1, src2);
        case BGT => st := CodeComp(LT, false, op, e1, e2, g, p1, here1, free1, src2);
        case BGE => st := CodeComp(LE, false, op, e1, e2, g, p1, here1, free1, src2);
      }
    }

    /** codearith for unary operators, on a value in a register. */
    method CodeUnary(op: ArithOp, uop: UnOp, e: ExpDesc, ghost g: Goal) returns (st: Status)
      requires Inv(g, e) && Temp(g, e) && e.k.VNONRELOC? && !e.HasJumps()
      requires (op == UNM && uop == MINUS) || (op == LEN && uop == LENGTH)
      modifies this, e
      ensures st.Done? ==> Inv(UnGoal(g, uop), e) && Temp(g, e) && Steady(e) && e.k.VRELOCABLE?
      ensures Bounded(1, old(freereg), st)
    {
      hide Described, ConstsOk, CodeOk, IsList, Valued, StageOk;
      HeadsDiffer(code, e.t, e.ts, e.f, e.fs);
      FreeExp(e);
      ghost var p, lt, here := Pr(), lasttarget, js;
      assert ListsOk() && Pending(p, Elems(js)) by { PendAll(); }
      assert Elems([]) == {};
      NoList(code);
      var reg: Reg := e.k.reg;
      :- Code(ARITH(op, 0, reg, 0));
      AfterEmit(p.c, p.pend, lt, here, NO_JUMP, [], NO_JUMP, [], ARITH(op, 0, reg, 0), code);
      UnaryOpened(g, p, Elems(here), op, uop, reg, Pr());
      e.k := VRELOCABLE(|code| - 1);
      assert Held(e) == old(pend) - Elems(old(js));
      return Done;
    }

    /** luaK_prefix */
    method Prefix(uop: UnOp, e: ExpDesc, ghost g: Goal) returns (st: Status)
      requires Inv(g, e) && Temp(g, e) && TrueConst(e)
      modifies this, e
      ensures st.Done? ==> Inv(UnGoal(g, uop), e) && Temp(g, e) && Steady(e) && TrueConst(e)
      ensures Bounded(7, g.free0 + 1, st)
    {
      hide Described, ConstsOk, CodeOk, IsList, Valued, StageOk;
      if uop.NOT? {
        st := CodeNot(e, g);
        return;
      }
      if uop.MINUS? && e.IsNumeral() {
        var r := S.num(UNM, e.k.nval, 0.0);
        if !S.isNaN(r) {
          NegatedNumeral(g, e);
          e.k := VKNUM(r);
          return Done;
        }
        assert false;
      }
      var _ :- Exp2AnyReg(e, g);
      ghost var c := code;
      :- CodeUnary(if uop.MINUS? then UNM else LEN, uop, e, g);
      KeptTrans(old(code), c, code, old(Held(e)), old(Held(e)));
      return Done;
    }

    /** Folding a negated numeral. */
    lemma NegatedNumeral(g: Goal, e: ExpDesc)
      requires Inv(g, e) && e.k.VKNUM?
      requires e.IsNumeral()
      ensures Described(UnGoal(g, MINUS), Pr(), Elems(js), Val(VKNUM(S.num(UNM, e.k.nval, 0.0))), Elems(e.ts), Elems(e.fs))
    {
      PendingLists(e);
      assert Elems(e.ts) == Elems(e.fs) == {};
      UnaryFolded(g, Pr(), Elems(js), e.k.nval);
    }

    /** luaK_infix for arithmetic and comparison operators: the first operand becomes a
        numeral, a constant in range or a register. */
    method InfixValue(op: BinOp, e: ExpDesc, ghost g: Goal) returns (st: Status)
      requires Inv(g, e) && Temp(g, e) && !op.AND? && !op.OR?
      modifies this, e
      ensures st.Done? ==> Valid() && First(g, e, Pr(), Elems(js), freereg) && (!op.BArith? ==> AlreadyRK(e)) && nactvar == old(nactvar) && old(k) <= k
      ensures st.Done? ==> Kept(old(code), code, old(Held(e))) && pend - Elems(js) == old(Held(e))
      ensures Bounded(12, g.free0 + 1, st)
    {
      hide Described, ConstsOk, CodeOk, IsList, Valued, StageOk, Kept;
      KeptSame(code, Held(e));
      if !(op.BArith? && e.IsNumeral()) {
        var _ :- Exp2RK(e, g);
      }
      HeadsDiffer(code, e.t, e.ts, e.f, e.fs);
      assert Elems([]) == {};
      assert Held(e) == pend - Elems(js);
      return Done;
    }

    /** The tested first operand of `and` (`b`) or `or` since `p1`. */
    ghost predicate Decided(g: Goal, e: ExpDesc, b: bool, p1: Prog, here1: set<int>, free1: nat)
      reads this, e
    {
      var l := if b then e.fs else e.ts;
      && g.S == S && g.np == np && nactvar <= g.free0 == free1
      && (if b then e.t == NO_JUMP && e.ts == [] else e.f == NO_JUMP && e.fs == [])
      && IsList(p1.c, if b then e.f else e.t, l)
      && IsList(code, if b then e.f else e.t, l)
      && here1 <= p1.pend && Elems(l) <= p1.pend - here1
      && g.p0.pend - g.here0 == p1.pend - here1 - Elems(l)
      && Pending(p1, here1 + Elems(l))
      && Kept(p1.c, code, Elems(l)) && p1.k <= k
      && Described(g, p1, here1, Cond(b), if b then {} else Elems(l), if b then Elems(l) else {})
    }

    /** luaK_posfix for `and` and `or`: the pending jumps of both operands are joined. */
    method PosfixLogic(b: bool, e1: ExpDesc, e2: ExpDesc, ghost g: Goal, ghost p1: Prog, ghost here1: set<int>, ghost free1: nat, ghost src2: Expr) returns (st: Status)
      requires e1 != e2 && Decided(g, e1, b, p1, here1, free1)
      requires Inv(SubGoal(g, p1, here1, free1, src2), e2) && Temp(SubGoal(g, p1, here1, free1, src2), e2)
      requires TrueConst(e2) && WellFormed(S, nactvar, src2)
      modifies this, e1, e2
      ensures st.Done? ==> Inv(BinGoal(g, if b then AND else OR, src2), e1) && Temp(g, e1) && TrueConst(e1) && nactvar == old(nactvar) && old(k) <= k
      ensures st.Done? ==> Held(e1) == old(Held(e2)) - old(Elems(if b then e1.fs else e1.ts))
      ensures st.Done? ==> Kept(old(code), code, Held(e1))
      ensures Bounded(1, free1 + 1, st)
    {
      hide Described, ConstsOk, CodeOk, IsList, Valued, StageOk, Pending, Kept;
      ghost var l, held := if b then e1.fs else e1.ts, Held(e2);
      :- DischargeVars(e2, SubGoal(g, p1, here1, free1, src2));
      ghost var c := code;
      KeptLess(old(code), c, Elems(l), held);
      KeptLess(old(code), c, held - Elems(l), held);
      KeptTrans(p1.c, old(code), c, Elems(l), Elems(l));
      ListKept(old(code), c, if b then e1.f else e1.t, l);
      :- JoinLists(b, e1, e2, g, p1, here1, free1, src2);
      KeptTrans(old(code), c, code, held - Elems(l), held - Elems(l));
      Assign(e1, e2, BinGoal(g, if b then AND else OR, src2));
      return Done;
    }

    /** *e1 = *e2 */
    method Assign(e1: ExpDesc, e2: ExpDesc, ghost g: Goal)
      requires e1 != e2 && Inv(g, e2) && Temp(g, e2) && TrueConst(e2)
      modifies e1
      ensures Inv(g, e1) && Temp(g, e1) && TrueConst(e1) && Held(e1) == old(Held(e2))
    {
      hide Described, ConstsOk, CodeOk, IsList, StageOk;
      e1.k, e1.t, e1.f := e2.k, e2.t, e2.f;
      e1.ts, e1.fs := e2.ts, e2.fs;
    }

    /** luaK_concat of the first operand's jumps to the second operand's false (true) list. */
    method JoinLists(b: bool, e1: ExpDesc, e2: ExpDesc, ghost g: Goal, ghost p1: Prog, ghost here1: set<int>, ghost free1: nat, ghost src2: Expr) returns (st: Status)
      requires e1 != e2 && Decided(g, e1, b, p1, here1, free1) && !IsVar(e2)
      requires Inv(SubGoal(g, p1, here1, free1, src2), e2) && Temp(SubGoal(g, p1, here1, free1, src2), e2)
      requires TrueConst(e2) && WellFormed(S, nactvar, src2)
      modifies this`code, e2`t, e2`f, e2`ts, e2`fs
      ensures st.Done? ==> Inv(BinGoal(g, if b then AND else OR, src2), e2) && Temp(g, e2) && TrueConst(e2)
      ensures st.Done? ==> Held(e2) == old(Held(e2)) - Elems(if b then e1.fs else e1.ts)
      ensures st.Done? ==> Kept(old(code), code, Held(e2))
      ensures Bounded(0, old(freereg), st)
    {
      hide FuncState.AtLimit, Described, IsList, ConstsOk, Kept;
      if b {
        st := JoinFalse(e1, e2, g, p1, here1, free1, src2);
      } else {
        st := JoinTrue(e1, e2, g, p1, here1, free1, src2);
      }
    }

    method JoinFalse(e1: ExpDesc, e2: ExpDesc, ghost g: Goal, ghost p1: Prog, ghost here1: set<int>, ghost free1: nat, ghost src2: Expr) returns (st: Status)
      requires e1 != e2 && Decided(g, e1, true, p1, here1, free1) && !IsVar(e2)
      requires Inv(SubGoal(g, p1, here1, free1, src2), e2) && WellFormed(S, nactvar, src2)
      modifies this`code, e2`f, e2`fs
      ensures st.Done? ==> Inv(BinGoal(g, AND, src2), e2)
      ensures st.Done? ==> Held(e2) == old(Held(e2)) - Elems(e1.fs) && Kept(old(code), code, Held(e2))
      ensures Bounded(0, old(freereg), st)
    {
      hide Described, ConstsOk, CodeOk, IsList, Valued, Pending, Kept, StageOk, FuncState.AtLimit, WellFormed;
      ghost var p, ls := Pr(), e2.fs;
      PendingLists(e2);
      e2.f :- Concat(e2.f, e1.f, e2.fs, e1.fs);
      LogicJoined(g, p1, here1, e1.fs, true, src2, free1, p, lasttarget, Elems(js), e2.k, e2.t, e2.ts, e2.fs, Pr(), nactvar, js, jpc);
      e2.fs := e2.fs + e1.fs;
      assert Held(e2) == old(Held(e2)) - Elems(e1.fs);
      KeptLess(p.c, code, Held(e2), pend - Elems(ls));
      assert Valid() && Owns(e2);
      return Done;
    }

    method JoinTrue(e1: ExpDesc, e2: ExpDesc, ghost g: Goal, ghost p1: Prog, ghost here1: set<int>, ghost free1: nat, ghost src2: Expr) returns (st: Status)
      requires e1 != e2 && Decided(g, e1, false, p1, here1, free1) && !IsVar(e2)
      requires Inv(SubGoal(g, p1, here1, free1, src2), e2) && WellFormed(S, nactvar, src2)
      modifies this`code, e2`t, e2`ts
      ensures st.Done? ==> Inv(BinGoal(g, OR, src2), e2)
      ensures st.Done? ==> Held(e2) == old(Held(e2)) - Elems(e1.ts) && Kept(old(code), code, Held(e2))
      ensures Bounded(0, old(freereg), st)
    {
      hide Described, ConstsOk, CodeOk, IsList, Valued, Pending, Kept, StageOk, FuncState.AtLimit, WellFormed;
      ghost var p, ls := Pr(), e2.ts;
      PendingLists(e2);
      e2.t :- Concat(e2.t, e1.t, e2.ts, e1.ts);
      LogicJoined(g, p1, here1, e1.ts, false, src2, free1, p, lasttarget, Elems(js), e2.k, e2.f, e2.fs, e2.ts, Pr(), nactvar, js, jpc);
      e2.ts := e2.ts + e1.ts;
      assert Held(e2) == old(Held(e2)) - Elems(e1.ts);
      KeptLess(p.c, code, Held(e2), pend - Elems(ls));
      assert Valid() && Owns(e2);
      return Done;
    }

    // -------------------------------------------------------------- expressions

    /** Compiling `src` from here. */
    ghost function Start(src: Expr): Goal
      reads this
    {
      Goal(S, np, Pr(), Elems(js), freereg, src)
    }

    /** What compiling an expression from scratch achieves. */
    twostate predicate Compiled(src: Expr, new e: ExpDesc)
      reads this, e
    {
      && Inv(old(Start(src)), e) && Temp(old(Start(src)), e) && TrueConst(e)
      && nactvar == old(nactvar) && old(k) <= k
      && Held(e) == old(pend) - Elems(old(js)) && Kept(old(code), code, Held(e))
    }

    /** The descriptor of a leaf; a string becomes a constant. */
    method LeafOf(src: Expr) returns (st: Status, kind: Kind)
      requires Valid() && WellFormed(S, nactvar, src) && !src.Unary? && !src.Binary?
      modifies this`k, this`h
      ensures st.Done? ==> Valid() && old(k) <= k && LeafKind(k, src, kind) && (kind.VLOCAL? ==> kind.local < nactvar)
      ensures st.Done? ==> (kind.VKNUM? ==> !S.isNaN(kind.nval)) && !kind.VJMP? && !kind.VRELOCABLE? && !kind.VNONRELOC?
      ensures Bounded(1, old(freereg), st)
    {
      hide CodeOk, IsList, ConstsOk, FuncState.AtLimit;
      kind := VNIL;
      match src {
        case Const(v) =>
          match v {
            case Nil => kind := VNIL;
            case Bool(b) => kind := if b then VTRUE else VFALSE;
            case Num(n) => kind := VKNUM(n);
            case Str(s) => var i :- StringK(s); kind := VK(i);
          }
        case Local(r) => kind := VLOCAL(r);
        case Upval(u) => kind := VUPVAL(u);
        case Global(name) => var i :- StringK(name); kind := VGLOBAL(i);
      }
      return Done, kind;
    }

    /** init_exp for the leaves of simpleexp and singlevar. */
    method SimpleExp(src: Expr) returns (st: Status, e: ExpDesc)
      requires Valid() && WellFormed(S, nactvar, src) && !src.Unary? && !src.Binary?
      modifies this`k, this`h
      ensures fresh(e)
      ensures st.Done? ==> Compiled(src, e)
      ensures Bounded(1, old(freereg), st)
    {
      hide CodeOk, Described, StageOk, IsList, ConstsOk, Kept, Pending, FuncState.AtLimit, WellFormed;
      ghost var g := Start(src);
      e := new ExpDesc(VNIL);
      var kind :- LeafOf(src);
      e.k := kind;
      NoList(code);
      assert Elems([]) == {};
      KeptSame(code, pend - Elems(js));
      PendAll();
      LeafDescribed(g, Pr(), kind);
      assert Held(e) == pend - Elems(js);
      return Done, e;
    }

    /** luaK_infix and luaK_posfix around the second operand, for `and` and `or`. */
    method BinaryLogic(src: Expr, e: ExpDesc, ghost g: Goal) returns (st: Status)
      requires src.Binary? && (src.bop.AND? || src.bop.OR?) && WellFormed(S, nactvar, src)
      requires Inv(g, e) && Temp(g, e) && TrueConst(e) && g.src == src.left
      modifies this, e
      ensures st.Done? ==> Inv(g.(src := src), e) && Temp(g, e) && TrueConst(e) && nactvar == old(nactvar) && old(k) <= k
      ensures st.Done? ==> Held(e) == old(Held(e)) && Kept(old(code), code, Held(e))
      ensures Bounded(40 + 40 * Size(src.right), g.free0 + Depth(src), st)
      decreases src, 0
    {
      hide Described, ConstsOk, CodeOk, IsList, Valued, StageOk, Kept, Size, Depth, FuncState.AtLimit;
      BinaryNeeds(src);
      var b := src.bop.AND?;
      if b {
        :- GoIfTrue(e, g);
      } else {
        :- GoIfFalse(e, g);
      }
      ghost var c, p1, here1, free1 := code, Pr(), Elems(js), freereg;
      ghost var l, held := if b then e.fs else e.ts, old(Held(e));
      assert held == p1.pend - here1 - Elems(l);
      assert Elems([]) == {};
      EmptyHead(code, if b then e.t else e.f, if b then e.ts else e.fs);
      assert Pending(p1, here1 + Elems(l)) by { PendAll(); }
      KeptSame(code, Elems(l));
      var e2;
      e2 :- SubExpr(src.right);
      KeptLess(c, code, Elems(l), Held(e2));
      KeptLess(c, code, held, Held(e2));
      assert IsList(code, if b then e.f else e.t, l) by { ListKept(c, code, if b then e.f else e.t, l); }
      ghost var c2 := code;
      :- PosfixLogic(b, e, e2, g, p1, here1, free1, src.right);
      assert Held(e) == held;
      KeptTrans(c, c2, code, held, held);
      KeptTrans(old(code), c, code, held, held);
      return Done;
    }

    /** luaK_infix and luaK_posfix around the second operand, for the other operators. */
    method BinaryValue(src: Expr, e: ExpDesc, ghost g: Goal) returns (st: Status)
      requires src.Binary? && !src.bop.AND? && !src.bop.OR? && WellFormed(S, nactvar, src)
      requires Inv(g, e) && Temp(g, e) && TrueConst(e) && g.src == src.left
      modifies this, e
      ensures st.Done? ==> Inv(g.(src := src), e) && Temp(g, e) && TrueConst(e) && nactvar == old(nactvar) && old(k) <= k
      ensures st.Done? ==> Held(e) == old(Held(e)) && Kept(old(code), code, Held(e))
      ensures Bounded(40 + 40 * Size(src.right), g.free0 + Depth(src), st)
      decreases src, 0
    {
      hide Described, ConstsOk, CodeOk, IsList, Valued, StageOk, Kept, Size, Depth, FuncState.AtLimit;
      BinaryNeeds(src);
      var op := src.bop;
      :- InfixValue(op, e, g);
      ghost var c, p1, here1, free1, held := code, Pr(), Elems(js), freereg, old(Held(e));
      var e2;
      e2 :- SubExpr(src.right);
      ghost var c2 := code;
      :- PosfixValue(op, e, e2, g, p1, here1, free1, src.right);
      KeptTrans(c, c2, code, held, held);
      KeptTrans(old(code), c, code, held, held);
      return Done;
    }

    /** subexpr: the calls the parser makes for an expression tree. */
    method SubExpr(src: Expr) returns (st: Status, e: ExpDesc)
      requires Valid() && WellFormed(S, nactvar, src)
      modifies this
      ensures fresh(e)
      ensures st.Done? ==> Compiled(src, e)
      ensures Bounded(40 * Size(src), old(freereg) + Depth(src), st)
      decreases src, 1
    {
      hide Described, ConstsOk, CodeOk, IsList, Valued, StageOk;
      ghost var g := Start(src);
      match src {
        case Unary(uop, arg) =>
          st, e := SubExpr(arg);
          if st.Done? {
            st := Prefix(uop, e, g.(src := arg));
          }
        case Binary(bop, left, right) =>
          st, e := SubExpr(left);
          if st.Done? {
            if bop.AND? || bop.OR? {
              st := BinaryLogic(src, e, g.(src := left));
            } else {
              st := BinaryValue(src, e, g.(src := left));
            }
          }
        case _ =>
          st, e := SimpleExp(src);
      }
    }

    // -------------------------------------------------------------- statements

    /** An expression compiled for its truth: control falls through when it is true, and the
        jumps of the false list leave when it is false. */
    method CondExpr(src: Expr) returns (st: Status, e: ExpDesc)
      requires Valid() && WellFormed(S, nactvar, src)
      modifies this
      ensures fresh(e)
      ensures st.Done? ==> At(old(Start(src)), e, Cond(true)) && e.ts == [] && freereg == old(freereg)
      ensures st.Done? ==> Branches(old(Start(src)), Pr(), Elems(js), true, Elems(e.fs))
      ensures st.Done? ==> Kept(old(code), code, old(pend) - Elems(old(js)))
      ensures Bounded(40 * Size(src) + 4, old(freereg) + Depth(src), st)
    {
      hide Described, ConstsOk, CodeOk, IsList, StageOk;
      ghost var g := Start(src);
      st, e := SubExpr(src);
      if st.Done? {
        st := GoIfTrue(e, g);
      }
    }

    /** retstat with one expression. */
    method RetStat(src: Expr) returns (st: Status)
      requires Valid() && WellFormed(S, nactvar, src)
      modifies this
      ensures st.Done? ==> Valid() && js == [] && pend == old(pend) - Elems(old(js))
      ensures st.Done? ==> Returns(old(Start(src)), Pr())
      ensures Bounded(40 * Size(src) + 7, old(freereg) + Depth(src), st)
    {
      hide Described, ConstsOk, CodeOk, IsList, StageOk, Kept;
      ghost var g := Start(src);
      var e;
      e :- SubExpr(src);
      var first: nat;
      first :- Exp2AnyReg(e, g);
      HeadsDiffer(code, e.t, e.ts, e.f, e.fs);
      assert Elems([]) == {};
      assert Held(e) == pend - Elems(js);
      st := Ret(first, g);
    }

    /** luaK_ret of one value */
    method Ret(first: nat, ghost g: Goal) returns (st: Status)
      requires Valid() && first < 250 && g.S == S && g.np == np && Described(g, Pr(), Elems(js), Val(VNONRELOC(first)), {}, {})
      requires g.p0.pend - g.here0 == pend - Elems(js)
      modifies this`code, this`jpc, this`js, this`pend
      ensures st.Done? ==> Valid() && js == [] && pend == old(pend) - Elems(old(js))
      ensures st.Done? ==> Returns(g, Pr())
      ensures Bounded(1, old(freereg), st)
    {
      hide Described, ConstsOk, CodeOk, IsList, Kept;
      ghost var p, lt, here := Pr(), lasttarget, js;
      var reg: Reg := first;
      assert ListsOk() && Pending(p, Elems(js)) by { PendAll(); }
      NoList(code);
      assert Elems([]) == {};
      :- Code(RETURN(reg, 2));
      AfterEmit(p.c, p.pend, lt, here, NO_JUMP, [], NO_JUMP, [], RETURN(reg, 2), code);
      ReturnEmitted(g, p, Elems(here), reg, Pr());
      return Done;
    }

    /** A new function with `nparams` parameters, its first registers. */
    constructor (sem: Sem, nparams: nat)
      requires sem.Sane() && nparams < MAXSTACK
      ensures Valid() && S == sem && nactvar == nparams && np == nparams && freereg == nparams
      ensures code == [] && k == [] && pend == {} && js == []
    {
      S := sem;
      np := nparams;
      code, lasttarget, jpc := [], -1, NO_JUMP;
      freereg, nactvar := nparams, nparams;
      maxstacksize := if nparams > 2 then nparams else 2;
      k, h := [], map[];
      js, pend := [], {};
    }
  }

  /** Compiler correctness.  For every expression over the parameters of a function, the code of
      `return src` returns the value of `src` (or raises its error) whatever the parameters are.
      Compilation fails only when the code, the constants or the registers reach their limit. */
  method CompileReturn(S: Sem, nparams: nat, src: Expr) returns (st: Status, code: seq<Instr>, k: seq<Value>)
    requires S.Sane() && nparams < MAXSTACK && WellFormed(S, nparams, src)
    ensures st.Done? ==> forall init {:trigger Clean(nparams, init)} :: Clean(nparams, init) ==>
              Reaches(S, Prog(code, k, {}), 0, init, ReturnOf(Eval(S, src, init)))
    ensures st.Failed? ==> |code| > MAXARG_sBx || |k| >= MAXARG_Bx || nparams + Depth(src) + 1 >= MAXSTACK
    ensures |code| <= 40 * Size(src) + 7 && |k| <= 40 * Size(src) + 7
  {
    var fs := new FuncState(S, nparams);
    ghost var g := fs.Start(src);
    assert Elems([]) == {};
    st := fs.RetStat(src);
    code, k := fs.code, fs.k;
    if st.Done? {
      assert fs.Pr() == Prog(code, k, {});
      FunctionReturns(g, fs.Pr());
    }
  }
}
