/** Precompiled chunks: function prototypes and their binary form. */
module Chunk {
  import opened Basics

  type Byte = b: int | 0 <= b < 256
  type Text = seq<Byte>

  datatype Const = KNil | KBool(b: bool) | KNumber(n: nat) | KString(s: Text)

  datatype LocVar = LocVar(name: Option<Text>, startpc: int, endpc: int)

  /** A function prototype; numbers and instructions are their bit patterns. */
  datatype Proto = Proto(
    source: Option<Text>, linedefined: int, lastlinedefined: int,
    nups: Byte, numparams: Byte, isVararg: Byte, maxstacksize: Byte,
    code: seq<nat>, k: seq<Const>, p: seq<Proto>,
    lineinfo: seq<int>, locvars: seq<LocVar>, upvalues: seq<Option<Text>>)

  const LUAI_MAXCCALLS := 200
  const INT_LIMIT := 0x8000_0000
  const WORD := 0x1_0000_0000
  const DWORD := 0x1_0000_0000_0000_0000

  /** luaU_header, on a little-endian machine with ints of 4 and sizes and numbers of 8 bytes. */
  const HEADER: seq<Byte> := [0x1b, 0x4c, 0x75, 0x61, 0x51, 0, 1, 4, 8, 4, 8, 0]

  /** The source of a function whose chunk does not name one: `=?` */
  const UNKNOWN: Text := [0x3d, 0x3f]

  // ---------------------------------------------------------------- numbers

  function Bytes(x: nat, n: nat): (s: seq<Byte>)
    ensures |s| == n
  {
    if n == 0 then [] else [x % 256] + Bytes(x / 256, n - 1)
  }

  function FromBytes(s: seq<Byte>): nat {
    if s == [] then 0 else s[0] + 256 * FromBytes(s[1..])
  }

  function Range(n: nat): (r: nat)
    ensures r > 0
  {
    if n == 0 then 1 else 256 * Range(n - 1)
  }

  lemma {:induction false} BytesBack(x: nat, n: nat)
    requires x < Range(n)
    ensures FromBytes(Bytes(x, n)) == x
  {
    if n > 0 {
      BytesBack(x / 256, n - 1);
      var s := Bytes(x, n);
      assert s[0] == x % 256 && s[1..] == Bytes(x / 256, n - 1);
    }
  }

  lemma Ranges()
    ensures Range(4) == WORD && Range(8) == DWORD
  {
    assert Range(2) == 0x1_0000;
    assert Range(4) == 0x1_0000 * Range(2);
    assert Range(6) == 0x1_0000 * Range(4);
    assert Range(8) == 0x1_0000 * Range(6);
  }

  predicate IsInt(x: int) { -INT_LIMIT <= x < INT_LIMIT }

  /** A C int, in two's complement. */
  function IntBytes(x: int): (s: seq<Byte>)
    ensures |s| == 4
  {
    Bytes(x % WORD, 4)
  }

  function FromIntBytes(s: seq<Byte>): int {
    var x := FromBytes(s); if x >= INT_LIMIT then x - WORD else x
  }

  lemma IntBack(x: int)
    requires IsInt(x)
    ensures FromIntBytes(IntBytes(x)) == x
  {
    Ranges();
    BytesBack(x % WORD, 4);
  }

  // ---------------------------------------------------------------- reading

  datatype LoadError = UnexpectedEnd | BadInteger | BadConstant | CodeTooDeep | BadCode | BadHeader
  datatype Load<T> = Got(value: T, rest: seq<Byte>) | Failed(error: LoadError)

  /** LoadBlock */
  function GetBlock(s: seq<Byte>, n: nat): Load<seq<Byte>> {
    if |s| < n then Failed(UnexpectedEnd) else Got(s[..n], s[n..])
  }

  /** An int, of any sign. */
  function GetWord(s: seq<Byte>): Load<int> {
    match GetBlock(s, 4)
    case Failed(e) => Failed(e)
    case Got(b, rest) => Got(FromIntBytes(b), rest)
  }

  /** LoadInt */
  function GetInt(s: seq<Byte>): Load<int> {
    match GetWord(s)
    case Failed(e) => Failed(e)
    case Got(x, rest) => if x < 0 then Failed(BadInteger) else Got(x, rest)
  }

  function GetNat(s: seq<Byte>, n: nat): Load<nat> {
    match GetBlock(s, n)
    case Failed(e) => Failed(e)
    case Got(b, rest) => Got(FromBytes(b), rest)
  }

  /** LoadString */
  function GetString(s: seq<Byte>): Load<Option<Text>> {
    match GetNat(s, 8)
    case Failed(e) => Failed(e)
    case Got(size, rest) =>
      if size == 0 then Got(None, rest)
      else
        match GetBlock(rest, size)
        case Failed(e) => Failed(e)
        case Got(t, rest') => Got(Some(t[..size - 1]), rest')
  }

  /** `n` items, one after the other. */
  function GetMany<T>(get: seq<Byte> -> Load<T>, n: nat, s: seq<Byte>): Load<seq<T>> {
    if n == 0 then Got([], s)
    else
      match GetMany(get, n - 1, s)
      case Failed(e) => Failed(e)
      case Got(xs, rest) =>
        match get(rest)
        case Failed(e) => Failed(e)
        case Got(x, rest') => Got(xs + [x], rest')
  }

  /** A count and that many items. */
  function GetList<T>(get: seq<Byte> -> Load<T>, s: seq<Byte>): Load<seq<T>> {
    match GetInt(s)
    case Failed(e) => Failed(e)
    case Got(n, rest) => GetMany(get, n, rest)
  }

  // ---------------------------------------------------------------- writing

  /** DumpString */
  function PutString(s: Option<Text>): seq<Byte> {
    match s
    case None => Bytes(0, 8)
    case Some(t) => Bytes(|t| + 1, 8) + t + [0]
  }

  function PutMany<T>(put: T -> seq<Byte>, xs: seq<T>): seq<Byte> {
    if xs == [] then [] else PutMany(put, xs[..|xs| - 1]) + put(xs[|xs| - 1])
  }

  function PutList<T>(put: T -> seq<Byte>, xs: seq<T>): seq<Byte> {
    IntBytes(|xs|) + PutMany(put, xs)
  }

  /** Items written are read back, each as `back` says. */
  ghost predicate ReadBack<T(!new), U(!new)>(put: T -> seq<Byte>, get: seq<Byte> -> Load<U>, x: T, y: U) {
    forall rest :: get(put(x) + rest) == Got(y, rest)
  }

  lemma {:induction false} ManyBack<T(!new), U(!new)>(put: T -> seq<Byte>, get: seq<Byte> -> Load<U>, xs: seq<T>, ys: seq<U>, rest: seq<Byte>)
    requires |xs| == |ys| && forall i :: 0 <= i < |xs| ==> ReadBack(put, get, xs[i], ys[i])
    ensures GetMany(get, |xs|, PutMany(put, xs) + rest) == Got(ys, rest)
    decreases |xs|
  {
    if xs == [] {
      assert PutMany(put, xs) + rest == rest;
    } else {
      var n := |xs| - 1;
      var rest' := put(xs[n]) + rest;
      assert PutMany(put, xs) + rest == PutMany(put, xs[..n]) + rest';
      ManyBack(put, get, xs[..n], ys[..n], rest');
      assert ReadBack(put, get, xs[n], ys[n]);
      assert ys[..n] + [ys[n]] == ys;
    }
  }

  lemma BlockBack(b: seq<Byte>, n: nat, rest: seq<Byte>)
    requires |b| == n
    ensures GetBlock(b + rest, n) == Got(b, rest)
  {
  }

  lemma WordBack(x: int, rest: seq<Byte>)
    requires IsInt(x)
    ensures GetWord(IntBytes(x) + rest) == Got(x, rest) && (x >= 0 ==> GetInt(IntBytes(x) + rest) == Got(x, rest))
  {
    BlockBack(IntBytes(x), 4, rest);
    IntBack(x);
  }

  lemma NatBack(x: nat, n: nat, rest: seq<Byte>)
    requires x < Range(n)
    ensures GetNat(Bytes(x, n) + rest, n) == Got(x, rest)
  {
    BlockBack(Bytes(x, n), n, rest);
    BytesBack(x, n);
  }

  lemma ListBack<T(!new), U(!new)>(put: T -> seq<Byte>, get: seq<Byte> -> Load<U>, xs: seq<T>, ys: seq<U>, rest: seq<Byte>)
    requires |xs| == |ys| < INT_LIMIT && forall i :: 0 <= i < |xs| ==> ReadBack(put, get, xs[i], ys[i])
    ensures GetList(get, PutList(put, xs) + rest) == Got(ys, rest)
  {
    assert PutList(put, xs) + rest == IntBytes(|xs|) + (PutMany(put, xs) + rest);
    WordBack(|xs|, PutMany(put, xs) + rest);
    ManyBack(put, get, xs, ys, rest);
  }

  predicate StringFits(s: Option<Text>) { s.Some? ==> |s.value| + 1 < DWORD }

  lemma StringBack(s: Option<Text>, rest: seq<Byte>)
    requires StringFits(s)
    ensures GetString(PutString(s) + rest) == Got(s, rest)
  {
    Ranges();
    match s {
      case None => NatBack(0, 8, rest);
      case Some(t) =>
        assert PutString(s) + rest == Bytes(|t| + 1, 8) + ((t + [0]) + rest);
        NatBack(|t| + 1, 8, (t + [0]) + rest);
        BlockBack(t + [0], |t| + 1, rest);
        assert (t + [0])[..|t|] == t;
    }
  }

  // ---------------------------------------------------------------- parts of a prototype

  function PutConst(c: Const): seq<Byte> {
    match c
    case KNil => [0]
    case KBool(b) => [1, if b then 1 else 0]
    case KNumber(n) => [3] + Bytes(n, 8)
    case KString(s) => [4] + PutString(Some(s))
  }

  /** A constant that has no text cannot be a string. */
  function GetConst(s: seq<Byte>): Load<Const> {
    if s == [] then Failed(UnexpectedEnd)
    else
      match s[0]
      case 0 => Got(KNil, s[1..])
      case 1 => if |s| < 2 then Failed(UnexpectedEnd) else Got(KBool(s[1] != 0), s[2..])
      case 3 => (match GetNat(s[1..], 8) case Failed(e) => Failed(e) case Got(n, rest) => Got(KNumber(n), rest))
      case 4 =>
        (match GetString(s[1..])
         case Failed(e) => Failed(e)
         case Got(t, rest) => Got(KString(if t.Some? then t.value else []), rest))
      case _ => Failed(BadConstant)
  }

  predicate ConstFits(c: Const) {
    match c
    case KNumber(n) => n < DWORD
    case KString(s) => StringFits(Some(s))
    case _ => true
  }

  lemma ConstBack(c: Const, rest: seq<Byte>)
    requires ConstFits(c)
    ensures GetConst(PutConst(c) + rest) == Got(c, rest)
  {
    Ranges();
    var s := PutConst(c) + rest;
    match c {
      case KNil => assert s[1..] == rest;
      case KBool(_) => assert s[2..] == rest;
      case KNumber(n) =>
        assert s[1..] == Bytes(n, 8) + rest;
        NatBack(n, 8, rest);
      case KString(t) =>
        assert s[1..] == PutString(Some(t)) + rest;
        StringBack(Some(t), rest);
    }
  }

  function PutLocVar(v: LocVar): seq<Byte> { PutString(v.name) + IntBytes(v.startpc) + IntBytes(v.endpc) }

  function GetLocVar(s: seq<Byte>): Load<LocVar> {
    match GetString(s)
    case Failed(e) => Failed(e)
    case Got(name, r1) =>
      match GetInt(r1)
      case Failed(e) => Failed(e)
      case Got(startpc, r2) =>
        match GetInt(r2)
        case Failed(e) => Failed(e)
        case Got(endpc, r3) => Got(LocVar(name, startpc, endpc), r3)
  }

  predicate Natural(x: int) { 0 <= x < INT_LIMIT }

  predicate LocVarFits(v: LocVar) { StringFits(v.name) && Natural(v.startpc) && Natural(v.endpc) }

  lemma LocVarBack(v: LocVar, rest: seq<Byte>)
    requires LocVarFits(v)
    ensures GetLocVar(PutLocVar(v) + rest) == Got(v, rest)
  {
    var r2 := IntBytes(v.endpc) + rest;
    var r1 := IntBytes(v.startpc) + r2;
    assert PutLocVar(v) + rest == PutString(v.name) + r1;
    StringBack(v.name, r1);
    WordBack(v.startpc, r2);
    WordBack(v.endpc, rest);
  }

  /** The four bytes of a prototype. */
  datatype Sizes = Sizes(nups: Byte, numparams: Byte, isVararg: Byte, maxstacksize: Byte)

  function GetSizes(s: seq<Byte>): Load<Sizes> {
    match GetBlock(s, 4)
    case Failed(e) => Failed(e)
    case Got(b, rest) => Got(Sizes(b[0], b[1], b[2], b[3]), rest)
  }

  /** The part of a prototype before its nested functions. */
  datatype Head = Head(source: Option<Text>, linedefined: int, lastlinedefined: int, sizes: Sizes, code: seq<nat>, k: seq<Const>)

  /** The debug information. */
  datatype Debug = Debug(lineinfo: seq<int>, locvars: seq<LocVar>, upvalues: seq<Option<Text>>)

  function PutHead(h: Head): seq<Byte> {
    PutString(h.source) + IntBytes(h.linedefined) + IntBytes(h.lastlinedefined)
    + [h.sizes.nups, h.sizes.numparams, h.sizes.isVararg, h.sizes.maxstacksize]
    + PutList((w: nat) => Bytes(w, 4), h.code) + PutList(PutConst, h.k)
  }

  function GetHead(s: seq<Byte>): Load<Head> {
    match GetString(s)
    case Failed(e) => Failed(e)
    case Got(source, r1) =>
      match GetInt(r1)
      case Failed(e) => Failed(e)
      case Got(linedefined, r2) =>
        match GetInt(r2)
        case Failed(e) => Failed(e)
        case Got(lastlinedefined, r3) =>
          match GetSizes(r3)
          case Failed(e) => Failed(e)
          case Got(sizes, r4) =>
            match GetList(r => GetNat(r, 4), r4)
            case Failed(e) => Failed(e)
            case Got(code, r5) =>
              match GetList(GetConst, r5)
              case Failed(e) => Failed(e)
              case Got(k, r6) => Got(Head(source, linedefined, lastlinedefined, sizes, code, k), r6)
  }

  predicate HeadFits(h: Head) {
    && StringFits(h.source) && Natural(h.linedefined) && Natural(h.lastlinedefined)
    && |h.code| < INT_LIMIT && (forall w :: w in h.code ==> w < WORD)
    && |h.k| < INT_LIMIT && (forall c :: c in h.k ==> ConstFits(c))
  }

  lemma CodeBack(code: seq<nat>, rest: seq<Byte>)
    requires |code| < INT_LIMIT && forall w :: w in code ==> w < WORD
    ensures GetList(r => GetNat(r, 4), PutList((w: nat) => Bytes(w, 4), code) + rest) == Got(code, rest)
  {
    Ranges();
    var put, get := (w: nat) => Bytes(w, 4), r => GetNat(r, 4);
    forall i | 0 <= i < |code| ensures ReadBack(put, get, code[i], code[i]) {
      assert code[i] in code;
      forall r ensures get(put(code[i]) + r) == Got(code[i], r) { NatBack(code[i], 4, r); }
    }
    ListBack(put, get, code, code, rest);
  }

  lemma ConstsBack(k: seq<Const>, rest: seq<Byte>)
    requires |k| < INT_LIMIT && forall c :: c in k ==> ConstFits(c)
    ensures GetList(GetConst, PutList(PutConst, k) + rest) == Got(k, rest)
  {
    forall i | 0 <= i < |k| ensures ReadBack(PutConst, GetConst, k[i], k[i]) {
      forall r ensures GetConst(PutConst(k[i]) + r) == Got(k[i], r) { ConstBack(k[i], r); }
    }
    ListBack(PutConst, GetConst, k, k, rest);
  }

  lemma HeadBack(h: Head, rest: seq<Byte>)
    requires HeadFits(h)
    ensures GetHead(PutHead(h) + rest) == Got(h, rest)
  {
    hide GetString, PutString, GetInt, GetList, PutList, IntBytes;
    var r5 := PutList(PutConst, h.k) + rest;
    var r4 := PutList((w: nat) => Bytes(w, 4), h.code) + r5;
    var four := [h.sizes.nups, h.sizes.numparams, h.sizes.isVararg, h.sizes.maxstacksize];
    var r3 := four + r4;
    var r2 := IntBytes(h.lastlinedefined) + r3;
    var r1 := IntBytes(h.linedefined) + r2;
    assert PutHead(h) + rest == PutString(h.source) + r1;
    StringBack(h.source, r1);
    WordBack(h.linedefined, r2);
    WordBack(h.lastlinedefined, r3);
    BlockBack(four, 4, r4);
    CodeBack(h.code, r5);
    ConstsBack(h.k, rest);
  }

  function PutDebug(d: Debug): seq<Byte> {
    PutList(IntBytes, d.lineinfo) + PutList(PutLocVar, d.locvars) + PutList(PutString, d.upvalues)
  }

  function GetDebug(s: seq<Byte>): Load<Debug> {
    match GetList(GetWord, s)
    case Failed(e) => Failed(e)
    case Got(lineinfo, r1) =>
      match GetList(GetLocVar, r1)
      case Failed(e) => Failed(e)
      case Got(locvars, r2) =>
        match GetList(GetString, r2)
        case Failed(e) => Failed(e)
        case Got(upvalues, r3) => Got(Debug(lineinfo, locvars, upvalues), r3)
  }

  predicate DebugFits(d: Debug) {
    && |d.lineinfo| < INT_LIMIT && (forall x :: x in d.lineinfo ==> IsInt(x))
    && |d.locvars| < INT_LIMIT && (forall v :: v in d.locvars ==> LocVarFits(v))
    && |d.upvalues| < INT_LIMIT && (forall u :: u in d.upvalues ==> StringFits(u))
  }

  lemma DebugBack(d: Debug, rest: seq<Byte>)
    requires DebugFits(d)
    ensures GetDebug(PutDebug(d) + rest) == Got(d, rest)
  {
    var r2 := PutList(PutString, d.upvalues) + rest;
    var r1 := PutList(PutLocVar, d.locvars) + r2;
    assert PutDebug(d) + rest == PutList(IntBytes, d.lineinfo) + r1;
    LinesBack(d.lineinfo, r1);
    LocVarsBack(d.locvars, r2);
    NamesBack(d.upvalues, rest);
  }

  lemma LinesBack(xs: seq<int>, rest: seq<Byte>)
    requires |xs| < INT_LIMIT && forall x :: x in xs ==> IsInt(x)
    ensures GetList(GetWord, PutList(IntBytes, xs) + rest) == Got(xs, rest)
  {
    forall i | 0 <= i < |xs| ensures ReadBack(IntBytes, GetWord, xs[i], xs[i]) {
      forall r ensures GetWord(IntBytes(xs[i]) + r) == Got(xs[i], r) { WordBack(xs[i], r); }
    }
    ListBack(IntBytes, GetWord, xs, xs, rest);
  }

  lemma LocVarsBack(xs: seq<LocVar>, rest: seq<Byte>)
    requires |xs| < INT_LIMIT && forall x :: x in xs ==> LocVarFits(x)
    ensures GetList(GetLocVar, PutList(PutLocVar, xs) + rest) == Got(xs, rest)
  {
    forall i | 0 <= i < |xs| ensures ReadBack(PutLocVar, GetLocVar, xs[i], xs[i]) {
      forall r ensures GetLocVar(PutLocVar(xs[i]) + r) == Got(xs[i], r) { LocVarBack(xs[i], r); }
    }
    ListBack(PutLocVar, GetLocVar, xs, xs, rest);
  }

  lemma NamesBack(xs: seq<Option<Text>>, rest: seq<Byte>)
    requires |xs| < INT_LIMIT && forall x :: x in xs ==> StringFits(x)
    ensures GetList(GetString, PutList(PutString, xs) + rest) == Got(xs, rest)
  {
    forall i | 0 <= i < |xs| ensures ReadBack(PutString, GetString, xs[i], xs[i]) {
      forall r ensures GetString(PutString(xs[i]) + r) == Got(xs[i], r) { StringBack(xs[i], r); }
    }
    ListBack(PutString, GetString, xs, xs, rest);
  }

  // ---------------------------------------------------------------- prototypes

  function HeadOf(f: Proto, parent: Option<Text>, strip: bool): Head {
    Head(if f.source == parent || strip then None else f.source, f.linedefined, f.lastlinedefined,
      Sizes(f.nups, f.numparams, f.isVararg, f.maxstacksize), f.code, f.k)
  }

  function DebugOf(f: Proto, strip: bool): Debug {
    if strip then Debug([], [], []) else Debug(f.lineinfo, f.locvars, f.upvalues)
  }

  /** DumpFunction; `parent` is the source of the enclosing function. */
  function PutProto(f: Proto, parent: Option<Text>, strip: bool): seq<Byte>
    decreases f, 0
  {
    PutHead(HeadOf(f, parent, strip)) + IntBytes(|f.p|) + PutProtos(f.p, f.source, strip) + PutDebug(DebugOf(f, strip))
  }

  function PutProtos(ps: seq<Proto>, parent: Option<Text>, strip: bool): seq<Byte>
    decreases ps, 1
  {
    if ps == [] then [] else PutProtos(ps[..|ps| - 1], parent, strip) + PutProto(ps[|ps| - 1], parent, strip)
  }

  function Made(h: Head, parent: Option<Text>, p: seq<Proto>, d: Debug): Proto {
    Proto(if h.source == None then parent else h.source, h.linedefined, h.lastlinedefined,
      h.sizes.nups, h.sizes.numparams, h.sizes.isVararg, h.sizes.maxstacksize, h.code, h.k, p, d.lineinfo, d.locvars, d.upvalues)
  }

  /** LoadFunction, at a depth of C calls. `check` stands for luaG_checkcode. */
  function GetProto(s: seq<Byte>, parent: Option<Text>, level: nat, check: Proto -> bool): Load<Proto>
    decreases if level <= LUAI_MAXCCALLS then LUAI_MAXCCALLS - level else 0, 0
  {
    if level + 1 > LUAI_MAXCCALLS then Failed(CodeTooDeep)
    else
      match GetHead(s)
      case Failed(e) => Failed(e)
      case Got(h, r1) =>
        match GetInt(r1)
        case Failed(e) => Failed(e)
        case Got(n, r2) =>
          match GetProtos(n, r2, if h.source == None then parent else h.source, level + 1, check)
          case Failed(e) => Failed(e)
          case Got(ps, r3) =>
            match GetDebug(r3)
            case Failed(e) => Failed(e)
            case Got(d, r4) =>
              var f := Made(h, parent, ps, d);
              if check(f) then Got(f, r4) else Failed(BadCode)
  }

  function GetProtos(n: nat, s: seq<Byte>, parent: Option<Text>, level: nat, check: Proto -> bool): Load<seq<Proto>>
    decreases if level <= LUAI_MAXCCALLS then LUAI_MAXCCALLS - level else 0, n + 1
  {
    if n == 0 then Got([], s)
    else
      match GetProtos(n - 1, s, parent, level, check)
      case Failed(e) => Failed(e)
      case Got(ps, rest) =>
        match GetProto(rest, parent, level, check)
        case Failed(e) => Failed(e)
        case Got(f, rest') => Got(ps + [f], rest')
  }

  // ---------------------------------------------------------------- what comes back

  /** The prototype that comes back: functions without a source get that of the enclosing one. */
  function Restored(f: Proto, dumped: Option<Text>, loaded: Option<Text>, strip: bool): Proto
    decreases f, 0
  {
    var h := HeadOf(f, dumped, strip);
    Made(h, loaded, RestoredAll(f.p, f.source, if h.source == None then loaded else h.source, strip), DebugOf(f, strip))
  }

  function RestoredAll(ps: seq<Proto>, dumped: Option<Text>, loaded: Option<Text>, strip: bool): (r: seq<Proto>)
    ensures |r| == |ps|
    decreases ps, 1
  {
    if ps == [] then [] else RestoredAll(ps[..|ps| - 1], dumped, loaded, strip) + [Restored(ps[|ps| - 1], dumped, loaded, strip)]
  }

  /** Everything fits the types of the binary form. */
  predicate Fits(f: Proto)
    decreases f, 0
  {
    && HeadFits(Head(f.source, f.linedefined, f.lastlinedefined, Sizes(0, 0, 0, 0), f.code, f.k))
    && DebugFits(Debug(f.lineinfo, f.locvars, f.upvalues)) && |f.p| < INT_LIMIT && AllFit(f.p)
  }

  predicate AllFit(ps: seq<Proto>)
    decreases ps, 1
  {
    ps == [] || (AllFit(ps[..|ps| - 1]) && Fits(ps[|ps| - 1]))
  }

  /** How deep functions are nested. */
  function Depth(f: Proto): nat
    decreases f, 0
  {
    1 + MaxDepth(f.p)
  }

  function MaxDepth(ps: seq<Proto>): nat
    decreases ps, 1
  {
    if ps == [] then 0 else
      var a, b := MaxDepth(ps[..|ps| - 1]), Depth(ps[|ps| - 1]);
      if a > b then a else b
  }

  /** The code check accepts the function and all functions in it. */
  predicate Checked(f: Proto, check: Proto -> bool)
    decreases f, 0
  {
    check(f) && AllChecked(f.p, check)
  }

  predicate AllChecked(ps: seq<Proto>, check: Proto -> bool)
    decreases ps, 1
  {
    ps == [] || (AllChecked(ps[..|ps| - 1], check) && Checked(ps[|ps| - 1], check))
  }

  /** Loading what was dumped. */
  lemma {:induction false} ProtoBack(f: Proto, dumped: Option<Text>, loaded: Option<Text>, strip: bool, level: nat, check: Proto -> bool, rest: seq<Byte>)
    requires Fits(f) && level + Depth(f) <= LUAI_MAXCCALLS && Checked(Restored(f, dumped, loaded, strip), check)
    ensures GetProto(PutProto(f, dumped, strip) + rest, loaded, level, check) == Got(Restored(f, dumped, loaded, strip), rest)
    decreases f, 0
  {
    hide GetHead, PutHead, GetInt, IntBytes, GetDebug, PutDebug, GetProto, PutProto, GetProtos, PutProtos, HeadFits, DebugFits;
    var h, d := HeadOf(f, dumped, strip), DebugOf(f, strip);
    var r3 := PutDebug(d) + rest;
    var r2 := PutProtos(f.p, f.source, strip) + r3;
    var r1 := IntBytes(|f.p|) + r2;
    PartsFit(f, dumped, strip);
    PutParts(f, dumped, strip, rest);
    HeadBack(h, r1);
    WordBack(|f.p|, r2);
    var source := if h.source == None then loaded else h.source;
    ProtosBack(f.p, f.source, source, strip, level + 1, check, r3);
    DebugBack(d, rest);
    GetParts(PutHead(h) + r1, loaded, level, check, h, r1, r2, RestoredAll(f.p, f.source, source, strip), r3, d, rest);
  }

  lemma PartsFit(f: Proto, dumped: Option<Text>, strip: bool)
    requires Fits(f)
    ensures HeadFits(HeadOf(f, dumped, strip)) && DebugFits(DebugOf(f, strip)) && |f.p| < INT_LIMIT && AllFit(f.p)
  {
  }

  lemma PutParts(f: Proto, dumped: Option<Text>, strip: bool, rest: seq<Byte>)
    ensures PutProto(f, dumped, strip) + rest
      == PutHead(HeadOf(f, dumped, strip)) + (IntBytes(|f.p|) + (PutProtos(f.p, f.source, strip) + (PutDebug(DebugOf(f, strip)) + rest)))
  {
    hide PutHead, IntBytes, PutProtos, PutDebug;
  }

  lemma GetParts(s: seq<Byte>, parent: Option<Text>, level: nat, check: Proto -> bool,
      h: Head, r1: seq<Byte>, r2: seq<Byte>, ps: seq<Proto>, r3: seq<Byte>, d: Debug, rest: seq<Byte>)
    requires level < LUAI_MAXCCALLS && GetHead(s) == Got(h, r1) && GetInt(r1) == Got(|ps|, r2)
    requires GetProtos(|ps|, r2, if h.source == None then parent else h.source, level + 1, check) == Got(ps, r3)
    requires GetDebug(r3) == Got(d, rest) && check(Made(h, parent, ps, d))
    ensures GetProto(s, parent, level, check) == Got(Made(h, parent, ps, d), rest)
  {
    hide GetHead, GetInt, GetProtos, GetDebug;
  }

  lemma {:induction false} ProtosBack(ps: seq<Proto>, dumped: Option<Text>, loaded: Option<Text>, strip: bool, level: nat, check: Proto -> bool, rest: seq<Byte>)
    requires AllFit(ps) && level + MaxDepth(ps) <= LUAI_MAXCCALLS && AllChecked(RestoredAll(ps, dumped, loaded, strip), check)
    ensures GetProtos(|ps|, PutProtos(ps, dumped, strip) + rest, loaded, level, check) == Got(RestoredAll(ps, dumped, loaded, strip), rest)
    decreases ps, 1
  {
    hide GetProto, PutProto, Restored;
    if ps == [] {
      assert PutProtos(ps, dumped, strip) + rest == rest;
    } else {
      var n := |ps| - 1;
      var rest' := PutProto(ps[n], dumped, strip) + rest;
      assert PutProtos(ps, dumped, strip) + rest == PutProtos(ps[..n], dumped, strip) + rest';
      var rs := RestoredAll(ps, dumped, loaded, strip);
      assert rs[..n] == RestoredAll(ps[..n], dumped, loaded, strip) && rs[n] == Restored(ps[n], dumped, loaded, strip);
      ProtosBack(ps[..n], dumped, loaded, strip, level, check, rest');
      ProtoBack(ps[n], dumped, loaded, strip, level, check, rest);
    }
  }

  // ---------------------------------------------------------------- round trips

  /** Every function has a source. */
  predicate Sourced(f: Proto)
    decreases f, 0
  {
    f.source.Some? && AllSourced(f.p)
  }

  predicate AllSourced(ps: seq<Proto>)
    decreases ps, 1
  {
    ps == [] || (AllSourced(ps[..|ps| - 1]) && Sourced(ps[|ps| - 1]))
  }

  lemma {:induction false} SameBack(f: Proto, dumped: Option<Text>, loaded: Option<Text>)
    requires loaded.Some? && (dumped == loaded || (dumped == None && f.source.Some?))
    ensures Restored(f, dumped, loaded, false) == f <==> Sourced(f)
    decreases f, 0
  {
    var source := if f.source == dumped || f.source == None then loaded else f.source;
    AllSameBack(f.p, f.source, source);
  }

  lemma {:induction false} AllSameBack(ps: seq<Proto>, dumped: Option<Text>, loaded: Option<Text>)
    requires loaded.Some? && (dumped.Some? ==> dumped == loaded)
    ensures dumped.Some? ==> (RestoredAll(ps, dumped, loaded, false) == ps <==> AllSourced(ps))
    decreases ps, 1
  {
    if ps != [] && dumped.Some? {
      var n := |ps| - 1;
      AllSameBack(ps[..n], dumped, loaded);
      SameBack(ps[n], dumped, loaded);
      var rs := RestoredAll(ps, dumped, loaded, false);
      assert rs[..n] == RestoredAll(ps[..n], dumped, loaded, false);
      if rs == ps { assert rs[..n] == ps[..n] && rs[n] == ps[n]; }
      assert ps[..n] + [ps[n]] == ps;
    }
  }

  /** The prototype without debug information, and with no source but `=?`. */
  function Stripped(f: Proto): Proto
    decreases f, 0
  {
    f.(source := Some(UNKNOWN), lineinfo := [], locvars := [], upvalues := [], p := AllStripped(f.p))
  }

  function AllStripped(ps: seq<Proto>): seq<Proto>
    decreases ps, 1
  {
    if ps == [] then [] else AllStripped(ps[..|ps| - 1]) + [Stripped(ps[|ps| - 1])]
  }

  lemma {:induction false} StrippedBack(f: Proto, dumped: Option<Text>)
    ensures Restored(f, dumped, Some(UNKNOWN), true) == Stripped(f)
    decreases f, 0
  {
    AllStrippedBack(f.p, f.source);
  }

  lemma {:induction false} AllStrippedBack(ps: seq<Proto>, dumped: Option<Text>)
    ensures RestoredAll(ps, dumped, Some(UNKNOWN), true) == AllStripped(ps)
    decreases ps, 1
  {
    if ps != [] {
      AllStrippedBack(ps[..|ps| - 1], dumped);
      StrippedBack(ps[|ps| - 1], dumped);
    }
  }

  /** luaU_dump */
  function Dump(f: Proto, strip: bool): seq<Byte> { HEADER + PutProto(f, None, strip) }

  /** luaU_undump, at a depth of C calls. */
  function Undump(s: seq<Byte>, level: nat, check: Proto -> bool): Load<Proto> {
    match GetBlock(s, |HEADER|)
    case Failed(e) => Failed(e)
    case Got(h, rest) => if h != HEADER then Failed(BadHeader) else GetProto(rest, Some(UNKNOWN), level, check)
  }

  /** Loading the dump of a function that has a source gives the function back exactly when all
      functions in it have one; the source of the enclosing function is left out of the dump, and
      put back. */
  lemma DumpRoundTrip(f: Proto, level: nat, check: Proto -> bool)
    requires Fits(f) && f.source.Some? && level + Depth(f) <= LUAI_MAXCCALLS && Checked(Restored(f, None, Some(UNKNOWN), false), check)
    ensures Undump(Dump(f, false), level, check) == Got(f, []) <==> Sourced(f)
  {
    hide GetProto, PutProto, Restored;
    var s := PutProto(f, None, false);
    assert Dump(f, false) == HEADER + s && s + [] == s;
    BlockBack(HEADER, |HEADER|, s);
    ProtoBack(f, None, Some(UNKNOWN), false, level, check, []);
    SameBack(f, None, Some(UNKNOWN));
  }

  /** Loading a stripped dump gives the function without debug information; every source is `=?`. */
  lemma StripRoundTrip(f: Proto, level: nat, check: Proto -> bool)
    requires Fits(f) && level + Depth(f) <= LUAI_MAXCCALLS && Checked(Stripped(f), check)
    ensures Undump(Dump(f, true), level, check) == Got(Stripped(f), [])
  {
    hide GetProto, PutProto, Restored, Stripped;
    var s := PutProto(f, None, true);
    assert Dump(f, true) == HEADER + s && s + [] == s;
    BlockBack(HEADER, |HEADER|, s);
    StrippedBack(f, None);
    ProtoBack(f, None, Some(UNKNOWN), true, level, check, []);
  }

  // ---------------------------------------------------------------- layout

  const LUA_SIGNATURE: string := "\U{1b}Lua"
  const LUAC_VERSION := 0x51
  const LUAC_FORMAT := 0
  const LUA_TNIL := 0
  const LUA_TBOOLEAN := 1
  const LUA_TNUMBER := 3
  const LUA_TSTRING := 4

  function Quotient(x: nat, d: nat): nat
    requires d > 0
  {
    x / d
  }

  /** The least significant byte comes first. */
  lemma {:induction false} BytesAt(x: nat, n: nat, i: nat)
    requires i < n
    ensures Bytes(x, n)[i] == Quotient(x, Range(i)) % 256
    decreases n
  {
    hide Quotient;
    if i > 0 {
      BytesAt(x / 256, n - 1, i - 1);
      DivideTwice(x, Range(i - 1));
    } else {
      QuotientIs(x, 1, x, 0);
    }
  }

  lemma DivideTwice(x: nat, r: nat)
    requires r > 0
    ensures Quotient(x / 256, r) == Quotient(x, 256 * r)
  {
    hide Quotient;
    var y := x / 256;
    var m := Remainder(y, r);
    var q := Quotient(y, r);
    Nested(x, y, x % 256, q, m, r);
    QuotientIs(x, 256 * r, q, 256 * m + x % 256);
  }

  lemma Remainder(x: nat, d: nat) returns (m: nat)
    requires d > 0
    ensures x == Quotient(x, d) * d + m && m < d
  {
    m := x % d;
  }

  lemma QuotientIs(x: nat, d: nat, q: nat, m: nat)
    requires m < d && x == q * d + m
    ensures Quotient(x, d) == q
  {
    hide Quotient;
    var m' := Remainder(x, d);
    OneQuotient(q, m, Quotient(x, d), m', d);
  }

  lemma Nested(x: nat, y: nat, z: nat, q: nat, m: nat, r: nat)
    requires x == 256 * y + z && z < 256 && y == q * r + m && m < r
    ensures x == q * (256 * r) + (256 * m + z) && 256 * m + z < 256 * r
  {
    assert q * (256 * r) == 256 * (q * r);
  }

  lemma OneQuotient(q: nat, m: nat, q': nat, m': nat, d: nat)
    requires m < d && m' < d && q * d + m == q' * d + m'
    ensures q == q'
  {
    if q < q' { MoreTimes(q, q', d); }
    if q' < q { MoreTimes(q', q, d); }
  }

  lemma MoreTimes(q: nat, q': nat, d: nat)
    requires q < q'
    ensures q * d + d <= q' * d
  {
    var k: nat := q' - q - 1;
    assert q' * d == q * d + d + k * d;
  }

  /** The twelve bytes of the header: signature, version and format, the first byte of the int 1,
      and the sizes of an int, a size, an instruction and a number as they are written. */
  lemma Header()
    ensures |HEADER| == 12 && forall i :: 0 <= i < 4 ==> HEADER[i] == LUA_SIGNATURE[i] as int
    ensures HEADER[4] == LUAC_VERSION && HEADER[5] == LUAC_FORMAT && HEADER[6] == IntBytes(1)[0] == 1
    ensures HEADER[7] == |IntBytes(0)| == 4 && HEADER[8] == |PutString(None)| == 8
    ensures HEADER[9] == |PutList((w: nat) => Bytes(w, 4), [0])| - |IntBytes(1)| == 4
    ensures HEADER[10] == |PutConst(KNumber(0))| - 1 == 8 && HEADER[11] == 0
  {
    BytesAt(1, 4, 0);
    var put := (w: nat) => Bytes(w, 4);
    assert PutMany(put, []) == [];
    assert [0][..0] == [] && PutMany(put, [0]) == [] + put(0);
  }

  /** Only chunks with this header are loaded. */
  lemma HeaderNeeded(s: seq<Byte>, level: nat, check: Proto -> bool)
    ensures |s| < 12 ==> Undump(s, level, check) == Failed(UnexpectedEnd)
    ensures |s| >= 12 && s[..12] != HEADER ==> Undump(s, level, check) == Failed(BadHeader)
  {
  }

  /** A constant starts with the tag of its type. */
  lemma Tags(c: Const)
    ensures PutConst(c) != [] && PutConst(c)[0] ==
      match c case KNil => LUA_TNIL case KBool(_) => LUA_TBOOLEAN case KNumber(_) => LUA_TNUMBER case KString(_) => LUA_TSTRING
  {
  }

  /** Where the parts of a stripped function are in its dump. */
  lemma StrippedLayout(f: Proto)
    requires |f.code| < INT_LIMIT
    ensures var s := Dump(f, true);
      && |s| >= 36 && s[..12] == HEADER && s[12..20] == Bytes(0, 8)
      && s[20..24] == IntBytes(f.linedefined) && s[24..28] == IntBytes(f.lastlinedefined)
      && s[28] == f.nups && s[29] == f.numparams && s[30] == f.isVararg && s[31] == f.maxstacksize && s[32..36] == IntBytes(|f.code|)
  {
    hide Bytes, PutMany;
    var h := HeadOf(f, None, true);
    var head := PutHead(h);
    var s := Dump(f, true);
    assert s == HEADER + (head + (IntBytes(|f.p|) + PutProtos(f.p, f.source, true) + PutDebug(DebugOf(f, true))));
    assert |head| >= 24;
    assert forall i :: 0 <= i < 24 ==> s[12 + i] == head[i];
  }
}
