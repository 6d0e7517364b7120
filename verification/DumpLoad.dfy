/** Writing precompiled chunks, and loading them. */
module DumpLoad {
  import opened Basics
  import opened Chunk

  class DumpState {
    var out: seq<Byte>    // what the writer got
    const strip: bool

    constructor (strip: bool)
      ensures out == [] && this.strip == strip
    {
      out, this.strip := [], strip;
    }

    method DumpBlock(b: seq<Byte>)
      modifies this
      ensures out == old(out) + b
    {
      out := out + b;
    }

    method DumpInt(x: int)
      modifies this
      ensures out == old(out) + IntBytes(x)
    {
      DumpBlock(IntBytes(x));
    }

    method DumpString(s: Option<Text>)
      modifies this
      ensures out == old(out) + PutString(s)
    {
      match s {
        case None => DumpBlock(Bytes(0, 8));
        case Some(t) =>
          DumpBlock(Bytes(|t| + 1, 8));
          DumpBlock(t + [0]);
          assert out == old(out) + PutString(s);
      }
    }

    method DumpCode(code: seq<nat>)
      modifies this
      ensures out == old(out) + PutList((w: nat) => Bytes(w, 4), code)
    {
      hide IntBytes, Bytes;
      DumpInt(|code|);
      ghost var put := (w: nat) => Bytes(w, 4);
      var i := 0;
      while i < |code|
        invariant 0 <= i <= |code| && out == old(out) + IntBytes(|code|) + PutMany(put, code[..i])
      {
        PutNext(put, code, i);
        DumpBlock(Bytes(code[i], 4));
        i := i + 1;
      }
      assert code[..i] == code;
    }

    method DumpConstant(c: Const)
      modifies this
      ensures out == old(out) + PutConst(c)
    {
      match c {
        case KNil => DumpBlock([0]);
        case KBool(b) =>
          DumpBlock([1]);
          DumpBlock([if b then 1 else 0]);
          assert out == old(out) + PutConst(c);
        case KNumber(n) =>
          DumpBlock([3]);
          DumpBlock(Bytes(n, 8));
          assert out == old(out) + PutConst(c);
        case KString(s) =>
          DumpBlock([4]);
          DumpString(Some(s));
          assert out == old(out) + PutConst(c);
      }
    }

    /** DumpConstants, without the nested functions. */
    method DumpConstants(k: seq<Const>)
      modifies this
      ensures out == old(out) + PutList(PutConst, k)
    {
      hide PutConst, IntBytes;
      DumpInt(|k|);
      var i := 0;
      while i < |k|
        invariant 0 <= i <= |k| && out == old(out) + IntBytes(|k|) + PutMany(PutConst, k[..i])
      {
        PutNext(PutConst, k, i);
        DumpConstant(k[i]);
        i := i + 1;
      }
      assert k[..i] == k;
    }

    method DumpLines(xs: seq<int>)
      modifies this
      ensures out == old(out) + PutList(IntBytes, xs)
    {
      hide IntBytes;
      DumpInt(|xs|);
      var i := 0;
      while i < |xs|
        invariant 0 <= i <= |xs| && out == old(out) + IntBytes(|xs|) + PutMany(IntBytes, xs[..i])
      {
        PutNext(IntBytes, xs, i);
        DumpBlock(IntBytes(xs[i]));
        i := i + 1;
      }
      assert xs[..i] == xs;
    }

    method DumpLocVar(v: LocVar)
      modifies this
      ensures out == old(out) + PutLocVar(v)
    {
      hide PutString, IntBytes;
      DumpString(v.name);
      DumpInt(v.startpc);
      DumpInt(v.endpc);
    }

    method DumpLocVars(xs: seq<LocVar>)
      modifies this
      ensures out == old(out) + PutList(PutLocVar, xs)
    {
      hide PutLocVar, IntBytes;
      DumpInt(|xs|);
      var i := 0;
      while i < |xs|
        invariant 0 <= i <= |xs| && out == old(out) + IntBytes(|xs|) + PutMany(PutLocVar, xs[..i])
      {
        PutNext(PutLocVar, xs, i);
        DumpLocVar(xs[i]);
        i := i + 1;
      }
      assert xs[..i] == xs;
    }

    method DumpNames(xs: seq<Option<Text>>)
      modifies this
      ensures out == old(out) + PutList(PutString, xs)
    {
      hide PutString, IntBytes;
      DumpInt(|xs|);
      var i := 0;
      while i < |xs|
        invariant 0 <= i <= |xs| && out == old(out) + IntBytes(|xs|) + PutMany(PutString, xs[..i])
      {
        PutNext(PutString, xs, i);
        DumpString(xs[i]);
        i := i + 1;
      }
      assert xs[..i] == xs;
    }

    method DumpDebug(f: Proto)
      modifies this
      ensures out == old(out) + PutDebug(DebugOf(f, strip))
    {
      hide PutList;
      DumpLines(if strip then [] else f.lineinfo);
      DumpLocVars(if strip then [] else f.locvars);
      DumpNames(if strip then [] else f.upvalues);
    }

    /** DumpFunction, up to the nested functions. */
    method DumpHead(f: Proto, p: Option<Text>)
      modifies this
      ensures out == old(out) + PutHead(HeadOf(f, p, strip))
    {
      hide PutList, PutString, IntBytes;
      DumpString(if f.source == p || strip then None else f.source);
      DumpInt(f.linedefined);
      DumpInt(f.lastlinedefined);
      DumpBlock([f.nups, f.numparams, f.isVararg, f.maxstacksize]);
      DumpCode(f.code);
      DumpConstants(f.k);
    }

    method DumpFunction(f: Proto, p: Option<Text>)
      modifies this
      ensures out == old(out) + PutProto(f, p, strip)
      decreases f, 1
    {
      hide PutHead, IntBytes, PutDebug;
      DumpHead(f, p);
      DumpInt(|f.p|);
      DumpFunctions(f.p, f.source);
      DumpDebug(f);
    }

    method DumpFunctions(ps: seq<Proto>, p: Option<Text>)
      modifies this
      ensures out == old(out) + PutProtos(ps, p, strip)
      decreases ps, 2
    {
      hide PutProto;
      var i := 0;
      while i < |ps|
        invariant 0 <= i <= |ps| && out == old(out) + PutProtos(ps[..i], p, strip)
      {
        assert ps[..i + 1][..i] == ps[..i] && ps[..i + 1][i] == ps[i];
        DumpFunction(ps[i], p);
        i := i + 1;
      }
      assert ps[..i] == ps;
    }

    /** luaU_dump */
    method DumpChunk(f: Proto)
      requires out == []
      modifies this
      ensures out == Dump(f, strip)
    {
      hide PutProto;
      DumpBlock(HEADER);
      DumpFunction(f, None);
    }
  }

  lemma PutNext<T>(put: T -> seq<Byte>, xs: seq<T>, i: nat)
    requires i < |xs|
    ensures PutMany(put, xs[..i + 1]) == PutMany(put, xs[..i]) + put(xs[i])
  {
    assert xs[..i + 1][..i] == xs[..i];
  }

  class LoadState {
    const input: seq<Byte>
    var pos: nat
    const check: Proto -> bool    // luaG_checkcode

    constructor (input: seq<Byte>, check: Proto -> bool)
      ensures Valid() && Rest() == input && this.check == check
    {
      this.input, this.check := input, check;
      pos := 0;
    }

    predicate Valid()
      reads this
    {
      pos <= |input|
    }

    function Rest(): seq<Byte>
      requires Valid()
      reads this
    {
      input[pos..]
    }

    /** The cursor is where `r` says. */
    ghost predicate At<T>(r: Load<T>)
      reads this
    {
      Valid() && (r.Got? ==> Rest() == r.rest)
    }

    method LoadBlock(n: nat) returns (r: Load<seq<Byte>>)
      requires Valid()
      modifies this
      ensures r == GetBlock(old(Rest()), n) && At(r)
    {
      if |input| - pos < n {
        return Failed(UnexpectedEnd);
      }
      assert Rest()[..n] == input[pos..pos + n] && Rest()[n..] == input[pos + n..];
      r := Got(input[pos..pos + n], input[pos + n..]);
      pos := pos + n;
    }

    method LoadWord() returns (r: Load<int>)
      requires Valid()
      modifies this
      ensures r == GetWord(old(Rest())) && At(r)
    {
      var b := LoadBlock(4);
      match b {
        case Failed(e) => r := Failed(e);
        case Got(v, _) => r := Got(FromIntBytes(v), Rest());
      }
    }

    method LoadInt() returns (r: Load<int>)
      requires Valid()
      modifies this
      ensures r == GetInt(old(Rest())) && At(r)
    {
      r := LoadWord();
      if r.Got? && r.value < 0 {
        r := Failed(BadInteger);
      }
    }

    method LoadNat(n: nat) returns (r: Load<nat>)
      requires Valid()
      modifies this
      ensures r == GetNat(old(Rest()), n) && At(r)
    {
      var b := LoadBlock(n);
      match b {
        case Failed(e) => r := Failed(e);
        case Got(v, _) => r := Got(FromBytes(v), Rest());
      }
    }

    method LoadString() returns (r: Load<Option<Text>>)
      requires Valid()
      modifies this
      ensures r == GetString(old(Rest())) && At(r)
    {
      var size := LoadNat(8);
      if size.Failed? {
        return Failed(size.error);
      }
      if size.value == 0 {
        return Got(None, Rest());
      }
      var b := LoadBlock(size.value);
      match b {
        case Failed(e) => r := Failed(e);
        case Got(s, _) => r := Got(Some(s[..size.value - 1]), Rest());
      }
    }

    method LoadConstant() returns (r: Load<Const>)
      requires Valid()
      modifies this
      ensures r == GetConst(old(Rest())) && At(r)
    {
      ghost var s := Rest();
      var t := LoadBlock(1);
      if t.Failed? {
        return Failed(t.error);
      }
      assert Rest() == s[1..];
      match t.value[0] {
        case 0 => r := Got(KNil, Rest());
        case 1 =>
          var b := LoadBlock(1);
          if b.Failed? {
            return Failed(b.error);
          }
          assert Rest() == s[2..];
          r := Got(KBool(b.value[0] != 0), Rest());
        case 3 =>
          var n := LoadNat(8);
          r := if n.Failed? then Failed(n.error) else Got(KNumber(n.value), Rest());
        case 4 =>
          var str := LoadString();
          r := if str.Failed? then Failed(str.error) else Got(KString(if str.value.Some? then str.value.value else []), Rest());
        case _ => r := Failed(BadConstant);
      }
    }

    method LoadCode() returns (r: Load<seq<nat>>)
      requires Valid()
      modifies this
      ensures r == GetList(b => GetNat(b, 4), old(Rest())) && At(r)
    {
      ghost var get := b => GetNat(b, 4);
      var n := LoadInt();
      if n.Failed? {
        return Failed(n.error);
      }
      ghost var s := Rest();
      var xs: seq<nat> := [];
      var i := 0;
      while i < n.value
        invariant 0 <= i <= n.value && Valid() && GetMany(get, i, s) == Got(xs, Rest())
      {
        var x := LoadNat(4);
        if x.Failed? {
          Stays(get, i + 1, n.value, s, x.error);
          return Failed(x.error);
        }
        xs := xs + [x.value];
        i := i + 1;
      }
      r := Got(xs, Rest());
    }

    method LoadConstants() returns (r: Load<seq<Const>>)
      requires Valid()
      modifies this
      ensures r == GetList(GetConst, old(Rest())) && At(r)
    {
      var n := LoadInt();
      if n.Failed? {
        return Failed(n.error);
      }
      ghost var s := Rest();
      var xs: seq<Const> := [];
      var i := 0;
      while i < n.value
        invariant 0 <= i <= n.value && Valid() && GetMany(GetConst, i, s) == Got(xs, Rest())
      {
        var x := LoadConstant();
        if x.Failed? {
          Stays(GetConst, i + 1, n.value, s, x.error);
          return Failed(x.error);
        }
        xs := xs + [x.value];
        i := i + 1;
      }
      r := Got(xs, Rest());
    }

    method LoadLines() returns (r: Load<seq<int>>)
      requires Valid()
      modifies this
      ensures r == GetList(GetWord, old(Rest())) && At(r)
    {
      var n := LoadInt();
      if n.Failed? {
        return Failed(n.error);
      }
      ghost var s := Rest();
      var xs: seq<int> := [];
      var i := 0;
      while i < n.value
        invariant 0 <= i <= n.value && Valid() && GetMany(GetWord, i, s) == Got(xs, Rest())
      {
        var x := LoadWord();
        if x.Failed? {
          Stays(GetWord, i + 1, n.value, s, x.error);
          return Failed(x.error);
        }
        xs := xs + [x.value];
        i := i + 1;
      }
      r := Got(xs, Rest());
    }

    method LoadLocVar() returns (r: Load<LocVar>)
      requires Valid()
      modifies this
      ensures r == GetLocVar(old(Rest())) && At(r)
    {
      hide GetString, GetInt;
      var name := LoadString();
      if name.Failed? {
        return Failed(name.error);
      }
      var startpc := LoadInt();
      if startpc.Failed? {
        return Failed(startpc.error);
      }
      var endpc := LoadInt();
      if endpc.Failed? {
        return Failed(endpc.error);
      }
      r := Got(LocVar(name.value, startpc.value, endpc.value), Rest());
    }

    method LoadLocVars() returns (r: Load<seq<LocVar>>)
      requires Valid()
      modifies this
      ensures r == GetList(GetLocVar, old(Rest())) && At(r)
    {
      var n := LoadInt();
      if n.Failed? {
        return Failed(n.error);
      }
      ghost var s := Rest();
      var xs: seq<LocVar> := [];
      var i := 0;
      while i < n.value
        invariant 0 <= i <= n.value && Valid() && GetMany(GetLocVar, i, s) == Got(xs, Rest())
      {
        var x := LoadLocVar();
        if x.Failed? {
          Stays(GetLocVar, i + 1, n.value, s, x.error);
          return Failed(x.error);
        }
        xs := xs + [x.value];
        i := i + 1;
      }
      r := Got(xs, Rest());
    }

    method LoadNames() returns (r: Load<seq<Option<Text>>>)
      requires Valid()
      modifies this
      ensures r == GetList(GetString, old(Rest())) && At(r)
    {
      var n := LoadInt();
      if n.Failed? {
        return Failed(n.error);
      }
      ghost var s := Rest();
      var xs: seq<Option<Text>> := [];
      var i := 0;
      while i < n.value
        invariant 0 <= i <= n.value && Valid() && GetMany(GetString, i, s) == Got(xs, Rest())
      {
        var x := LoadString();
        if x.Failed? {
          Stays(GetString, i + 1, n.value, s, x.error);
          return Failed(x.error);
        }
        xs := xs + [x.value];
        i := i + 1;
      }
      r := Got(xs, Rest());
    }

    method LoadDebug() returns (r: Load<Debug>)
      requires Valid()
      modifies this
      ensures r == GetDebug(old(Rest())) && At(r)
    {
      hide GetList;
      var lineinfo := LoadLines();
      if lineinfo.Failed? {
        return Failed(lineinfo.error);
      }
      var locvars := LoadLocVars();
      if locvars.Failed? {
        return Failed(locvars.error);
      }
      var upvalues := LoadNames();
      if upvalues.Failed? {
        return Failed(upvalues.error);
      }
      r := Got(Debug(lineinfo.value, locvars.value, upvalues.value), Rest());
    }

    /** LoadFunction, up to the nested functions. */
    method LoadHead() returns (r: Load<Head>)
      requires Valid()
      modifies this
      ensures r == GetHead(old(Rest())) && At(r)
    {
      hide GetList, GetString, GetInt, GetBlock;
      var source := LoadString();
      if source.Failed? {
        return Failed(source.error);
      }
      var linedefined := LoadInt();
      if linedefined.Failed? {
        return Failed(linedefined.error);
      }
      var lastlinedefined := LoadInt();
      if lastlinedefined.Failed? {
        return Failed(lastlinedefined.error);
      }
      var sizes := LoadSizes();
      if sizes.Failed? {
        return Failed(sizes.error);
      }
      var code := LoadCode();
      if code.Failed? {
        return Failed(code.error);
      }
      var k := LoadConstants();
      if k.Failed? {
        return Failed(k.error);
      }
      r := Got(Head(source.value, linedefined.value, lastlinedefined.value, sizes.value, code.value, k.value), Rest());
    }

    method LoadSizes() returns (r: Load<Sizes>)
      requires Valid()
      modifies this
      ensures r == GetSizes(old(Rest())) && At(r)
    {
      var b := LoadBlock(4);
      match b {
        case Failed(e) => r := Failed(e);
        case Got(v, _) => r := Got(Sizes(v[0], v[1], v[2], v[3]), Rest());
      }
    }

    /** LoadFunction; `level` counts the C calls. */
    method LoadFunction(p: Option<Text>, level: nat) returns (r: Load<Proto>)
      requires Valid()
      modifies this
      ensures r == GetProto(old(Rest()), p, level, check) && At(r)
      decreases if level <= LUAI_MAXCCALLS then LUAI_MAXCCALLS - level else 0, 0
    {
      hide GetHead, GetWord, GetDebug, Made;
      if level + 1 > LUAI_MAXCCALLS {
        return Failed(CodeTooDeep);
      }
      var h := LoadHead();
      if h.Failed? {
        return Failed(h.error);
      }
      var n := LoadInt();
      if n.Failed? {
        return Failed(n.error);
      }
      var ps := LoadFunctions(n.value, if h.value.source == None then p else h.value.source, level + 1);
      if ps.Failed? {
        return Failed(ps.error);
      }
      var d := LoadDebug();
      if d.Failed? {
        return Failed(d.error);
      }
      var f := Made(h.value, p, ps.value, d.value);
      r := if check(f) then Got(f, Rest()) else Failed(BadCode);
    }

    method LoadFunctions(n: nat, p: Option<Text>, level: nat) returns (r: Load<seq<Proto>>)
      requires Valid()
      modifies this
      ensures r == GetProtos(n, old(Rest()), p, level, check) && At(r)
      decreases if level <= LUAI_MAXCCALLS then LUAI_MAXCCALLS - level else 0, 1
    {
      hide GetProto;
      ghost var s := Rest();
      var ps: seq<Proto> := [];
      var i := 0;
      while i < n
        invariant 0 <= i <= n && Valid() && GetProtos(i, s, p, level, check) == Got(ps, Rest())
      {
        var f := LoadFunction(p, level);
        if f.Failed? {
          StaysProtos(i + 1, n, s, p, level, check, f.error);
          return Failed(f.error);
        }
        ps := ps + [f.value];
        i := i + 1;
      }
      r := Got(ps, Rest());
    }

    /** luaU_undump */
    method LoadChunk(level: nat) returns (r: Load<Proto>)
      requires Valid()
      modifies this
      ensures r == Undump(old(Rest()), level, check) && At(r)
    {
      hide GetProto;
      var h := LoadBlock(|HEADER|);
      if h.Failed? {
        return Failed(h.error);
      }
      if h.value != HEADER {
        return Failed(BadHeader);
      }
      r := LoadFunction(Some(UNKNOWN), level);
    }
  }

  /** An error among the first items stays an error. */
  lemma {:induction false} Stays<T>(get: seq<Byte> -> Load<T>, i: nat, n: nat, s: seq<Byte>, e: LoadError)
    requires i <= n && GetMany(get, i, s) == Failed(e)
    ensures GetMany(get, n, s) == Failed(e)
  {
    if i < n { Stays(get, i, n - 1, s, e); }
  }

  lemma {:induction false} StaysProtos(i: nat, n: nat, s: seq<Byte>, p: Option<Text>, level: nat, check: Proto -> bool, e: LoadError)
    requires i <= n && GetProtos(i, s, p, level, check) == Failed(e)
    ensures GetProtos(n, s, p, level, check) == Failed(e)
  {
    if i < n { StaysProtos(i, n - 1, s, p, level, check, e); }
  }
}
