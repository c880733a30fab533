/** What a scan may skip: literals are lifted out of the pushed filters, and every row they
 *  rule out is one the filters would have dropped. */
module Pruning {
  import opened Basics
  import opened Batches
  import Names
  import Calendar

  // ----- filters and their meaning

  datatype Truth = True | False | Unknown

  datatype Op = Eq | NotEq | Lt | LtEq | Gt | GtEq

  datatype Literal = Nanos(ns: Option<int>) | Micros(us: Option<int>) | Utf8(text: Option<string>)
                   | Utf8View(view: Option<string>) | Dict(inner: Literal) | Other(cell: Cell)

  /** Casts to another timestamp resolution, by number, to text, or to any other type. */
  datatype Target = Instant(unit: nat) | AsText | OtherType(id: nat)

  datatype Scalar = Col(name: string) | Lit(lit: Literal) | Cast(of: Scalar, to: Target) | OpaqueScalar(id: nat)

  datatype Expr = And(left: Expr, right: Expr) | Or(left: Expr, right: Expr) | Not(of: Expr)
                | Cmp(op: Op, l: Scalar, r: Scalar) | Opaque(id: nat)

  type Lookup = string -> Cell

  /** The parts of evaluation that belong to the query engine. */
  datatype Env = Env(conv: (nat, int) -> int, render: Cell -> string, other: (Target, Cell) -> Cell,
                     scalar: (nat, Lookup) -> Cell, pred: (nat, Lookup) -> Truth)

  function LitValue(l: Literal): Cell {
    match l
    case Nanos(Some(v)) => Stamp(v)
    case Micros(Some(v)) => Stamp(v * 1000)
    case Utf8(Some(s)) => Text(s)
    case Utf8View(Some(s)) => Text(s)
    case Dict(inner) => LitValue(inner)
    case Other(c) => c
    case _ => Null
  }

  function CastTo(env: Env, to: Target, c: Cell): Cell {
    if c.Null? || (to.AsText? && c.Text?) then c
    else if to.AsText? then Text(env.render(c))
    else if to.Instant? && c.Stamp? then Stamp(env.conv(to.unit, c.ns))
    else env.other(to, c)
  }

  function Value(env: Env, get: Lookup, s: Scalar): Cell {
    match s
    case Col(name) => get(name)
    case Lit(lit) => LitValue(lit)
    case Cast(of, to) => CastTo(env, to, Value(env, get, of))
    case OpaqueScalar(id) => env.scalar(id, get)
  }

  predicate Rel(op: Op, less: bool, equal: bool) {
    match op
    case Eq => equal
    case NotEq => !equal
    case Lt => less
    case LtEq => less || equal
    case Gt => !less && !equal
    case GtEq => !less
  }

  function Known(b: bool): Truth { if b then True else False }

  /** Comparison with a null, or across types, is unknown. */
  function Compare(op: Op, a: Cell, b: Cell): Truth {
    match (a, b)
    case (Stamp(x), Stamp(y)) => Known(Rel(op, x < y, x == y))
    case (Text(s), Text(t)) => Known(Rel(op, Names.LexLess(s, t), s == t))
    case (Value(t, x), Value(u, y)) => if t == u then Known(Rel(op, x < y, x == y)) else Unknown
    case (_, _) => Unknown
  }

  function Eval(env: Env, get: Lookup, e: Expr): Truth {
    match e
    case And(a, b) =>
      var x, y := Eval(env, get, a), Eval(env, get, b);
      if x.False? || y.False? then False else if x.True? && y.True? then True else Unknown
    case Or(a, b) =>
      var x, y := Eval(env, get, a), Eval(env, get, b);
      if x.True? || y.True? then True else if x.False? && y.False? then False else Unknown
    case Not(a) =>
      var x := Eval(env, get, a);
      if x.True? then False else if x.False? then True else Unknown
    case Cmp(op, l, r) => Compare(op, Value(env, get, l), Value(env, get, r))
    case Opaque(id) => env.pred(id, get)
  }

  /** A row passes when every filter is true of it. */
  predicate Passes(env: Env, get: Lookup, fs: seq<Expr>) {
    forall i :: 0 <= i < |fs| ==> Eval(env, get, fs[i]).True?
  }

  // ----- what a filter reads

  /** The filters read no column outside `names`. */
  ghost predicate Within(env: Env, fs: seq<Expr>, names: set<string>) {
    forall get: Lookup, get': Lookup {:trigger Passes(env, get, fs), Passes(env, get', fs)} ::
      (forall n :: n in names ==> get(n) == get'(n)) ==> (Passes(env, get, fs) <==> Passes(env, get', fs))
  }

  /** The columns are in `names`, and nothing is opaque. */
  predicate ScalarWithin(s: Scalar, names: set<string>) {
    match s
    case Col(name) => name in names
    case Lit(_) => true
    case Cast(of, _) => ScalarWithin(of, names)
    case OpaqueScalar(_) => false
  }

  predicate ExprWithin(e: Expr, names: set<string>) {
    match e
    case And(a, b) => ExprWithin(a, names) && ExprWithin(b, names)
    case Or(a, b) => ExprWithin(a, names) && ExprWithin(b, names)
    case Not(a) => ExprWithin(a, names)
    case Cmp(_, l, r) => ScalarWithin(l, names) && ScalarWithin(r, names)
    case Opaque(_) => false
  }

  lemma {:induction false} SameScalar(env: Env, get: Lookup, get': Lookup, s: Scalar, names: set<string>)
    requires ScalarWithin(s, names) && forall n :: n in names ==> get(n) == get'(n)
    ensures Value(env, get, s) == Value(env, get', s)
  {
    if s.Cast? { SameScalar(env, get, get', s.of, names); }
  }

  lemma {:induction false} SameTruth(env: Env, get: Lookup, get': Lookup, e: Expr, names: set<string>)
    requires ExprWithin(e, names) && forall n :: n in names ==> get(n) == get'(n)
    ensures Eval(env, get, e) == Eval(env, get', e)
  {
    match e
    case And(a, b) => SameTruth(env, get, get', a, names); SameTruth(env, get, get', b, names);
    case Or(a, b) => SameTruth(env, get, get', a, names); SameTruth(env, get, get', b, names);
    case Not(a) => SameTruth(env, get, get', a, names);
    case Cmp(_, l, r) => SameScalar(env, get, get', l, names); SameScalar(env, get, get', r, names);
  }

  lemma WithinNames(env: Env, fs: seq<Expr>, names: set<string>)
    requires forall i :: 0 <= i < |fs| ==> ExprWithin(fs[i], names)
    ensures Within(env, fs, names)
  {
    forall get: Lookup, get': Lookup | forall n :: n in names ==> get(n) == get'(n)
      ensures Passes(env, get, fs) <==> Passes(env, get', fs)
    {
      forall i | 0 <= i < |fs| ensures Eval(env, get, fs[i]) == Eval(env, get', fs[i]) { SameTruth(env, get, get', fs[i], names); }
    }
  }

  // ----- extraction

  datatype Pruning = Pruning(min: Option<int>, max: Option<int>, tags: seq<(string, string)>)

  function ColName(s: Scalar): Option<string> {
    match s
    case Col(name) => Some(name)
    case Cast(of, _) => ColName(of)
    case _ => None
  }

  /** Microseconds that overflow i64 as nanoseconds are not a literal. */
  function TsLiteral(s: Scalar): Option<int> {
    match s
    case Lit(Nanos(Some(v))) => Some(v)
    case Lit(Micros(Some(v))) => if Calendar.IsI64(v * 1000) then Some(v * 1000) else None
    case Cast(of, _) => TsLiteral(of)
    case _ => None
  }

  function StrLiteral(s: Scalar): Option<string> {
    match s
    case Lit(Utf8(Some(t))) => Some(t)
    case Lit(Utf8View(Some(t))) => Some(t)
    case Lit(Dict(Utf8(Some(t)))) => Some(t)
    case _ => None
  }

  function Lower(e: Expr): Option<int> {
    if e.Cmp? && (e.op.Gt? || e.op.GtEq?) && ColName(e.l) == Some("time") then TsLiteral(e.r) else None
  }

  function Upper(e: Expr): Option<int> {
    if e.Cmp? && (e.op.Lt? || e.op.LtEq?) && ColName(e.l) == Some("time") then TsLiteral(e.r) else None
  }

  function TagEq(e: Expr): Option<(string, string)> {
    if e.Cmp? && e.op.Eq? && ColName(e.l).Some? && StrLiteral(e.r).Some?
    then Some((ColName(e.l).value, StrLiteral(e.r).value)) else None
  }

  /** The conjuncts of a filter, left to right. */
  function Atoms(e: Expr): seq<Expr> {
    if e.And? then Atoms(e.left) + Atoms(e.right) else [e]
  }

  function AllAtoms(fs: seq<Expr>): seq<Expr> {
    if fs == [] then [] else AllAtoms(Init(fs)) + Atoms(Last(fs))
  }

  function Tighter(cur: Option<int>, lit: Option<int>, pick: (int, int) -> int): Option<int> {
    if lit.None? then cur else if cur.None? then lit else Some(pick(cur.value, lit.value))
  }

  function Note(p: Pruning, e: Expr): Pruning {
    Pruning(Tighter(p.min, Lower(e), Max), Tighter(p.max, Upper(e), Min),
            if TagEq(e).Some? then p.tags + [TagEq(e).value] else p.tags)
  }

  function NoteAll(p: Pruning, es: seq<Expr>): Pruning {
    if es == [] then p else Note(NoteAll(p, Init(es)), Last(es))
  }

  lemma {:induction false} NoteAllAppend(p: Pruning, a: seq<Expr>, b: seq<Expr>)
    ensures NoteAll(p, a + b) == NoteAll(NoteAll(p, a), b)
  {
    if b == [] {
      assert a + b == a;
    } else {
      NoteAllAppend(p, a, Init(b));
      assert Init(a + b) == a + Init(b);
    }
  }

  const NOTHING := Pruning(None, None, [])

  class Extraction {
    var min: Option<int>
    var max: Option<int>
    var tags: seq<(string, string)>

    constructor ()
      ensures Value() == NOTHING
    {
      min, max, tags := None, None, [];
    }

    function Value(): Pruning reads this { Pruning(min, max, tags) }

    /** Descends through conjunctions only. */
    method Walk(e: Expr)
      modifies this
      ensures Value() == NoteAll(old(Value()), Atoms(e))
      decreases e
    {
      match e
      case And(left, right) =>
        Walk(left);
        Walk(right);
        NoteAllAppend(old(Value()), Atoms(left), Atoms(right));
      case Cmp(op, l, r) =>
        assert NoteAll(old(Value()), Atoms(e)) == Note(old(Value()), e) by { assert Init([e]) == []; }
        match op {
          case Gt | GtEq => Raise(ColName(l), TsLiteral(r));
          case Lt | LtEq => Cut(ColName(l), TsLiteral(r));
          case Eq =>
            if ColName(l).Some? && StrLiteral(r).Some? { tags := tags + [(ColName(l).value, StrLiteral(r).value)]; }
          case NotEq =>
        }
      case _ =>
        assert NoteAll(old(Value()), Atoms(e)) == Note(old(Value()), e) by { assert Init([e]) == []; }
    }

    method Raise(col: Option<string>, ts: Option<int>)
      modifies this`min
      ensures min == if col == Some("time") then Tighter(old(min), ts, Max) else old(min)
    {
      if col == Some("time") && ts.Some? { min := Some(if min.None? then ts.value else Max(min.value, ts.value)); }
    }

    method Cut(col: Option<string>, ts: Option<int>)
      modifies this`max
      ensures max == if col == Some("time") then Tighter(old(max), ts, Min) else old(max)
    {
      if col == Some("time") && ts.Some? { max := Some(if max.None? then ts.value else Min(max.value, ts.value)); }
    }
  }

  method ExtractPruning(fs: seq<Expr>) returns (p: Pruning)
    ensures p == NoteAll(NOTHING, AllAtoms(fs))
  {
    var x := new Extraction();
    for i := 0 to |fs|
      invariant x.Value() == NoteAll(NOTHING, AllAtoms(fs[..i]))
    {
      assert Init(fs[..i + 1]) == fs[..i];
      NoteAllAppend(NOTHING, AllAtoms(fs[..i]), Atoms(fs[i]));
      x.Walk(fs[i]);
    }
    assert fs[..|fs|] == fs;
    p := x.Value();
  }

  // ----- what was extracted

  predicate Noted(es: seq<Expr>, lit: Expr -> Option<int>, v: Option<int>) {
    v.Some? ==> exists i :: 0 <= i < |es| && lit(es[i]) == v
  }

  predicate Bounded(es: seq<Expr>, lit: Expr -> Option<int>, cur: Option<int>, ok: (int, int) -> bool) {
    forall i :: 0 <= i < |es| && lit(es[i]).Some? ==> cur.Some? && ok(lit(es[i]).value, cur.value)
  }

  predicate HasTag(es: seq<Expr>, t: (string, string)) { exists i :: 0 <= i < |es| && TagEq(es[i]) == Some(t) }

  function AtMost(): (int, int) -> bool { (a: int, b: int) => a <= b }

  function AtLeast(): (int, int) -> bool { (a: int, b: int) => a >= b }

  lemma NotedMore(es: seq<Expr>, e: Expr, lit: Expr -> Option<int>, v: Option<int>, w: Option<int>)
    requires Noted(es, lit, v) && (w == v || w == lit(e))
    ensures Noted(es + [e], lit, w)
  {
    if w.Some? {
      var all := es + [e];
      if w == lit(e) {
        assert lit(all[|es|]) == w;
      } else {
        var i :| 0 <= i < |es| && lit(es[i]) == v;
        assert lit(all[i]) == w;
      }
    }
  }

  lemma HasTagMore(es: seq<Expr>, e: Expr, t: (string, string))
    ensures HasTag(es + [e], t) <==> HasTag(es, t) || TagEq(e) == Some(t)
  {
    var all := es + [e];
    if TagEq(e) == Some(t) { assert TagEq(all[|es|]) == Some(t); }
    if HasTag(es, t) {
      var i :| 0 <= i < |es| && TagEq(es[i]) == Some(t);
      assert TagEq(all[i]) == Some(t);
    }
  }

  /** The bounds are the tightest literals among the conjuncts; the tag literals are all of
   *  them. */
  lemma {:induction false} ExtractExact(es: seq<Expr>)
    ensures var p := NoteAll(NOTHING, es);
            && Noted(es, Lower, p.min) && Bounded(es, Lower, p.min, AtMost())
            && Noted(es, Upper, p.max) && Bounded(es, Upper, p.max, AtLeast())
            && (forall t :: t in p.tags <==> HasTag(es, t))
  {
    if es != [] {
      var p := NoteAll(NOTHING, Init(es));
      var e := Last(es);
      ExtractExact(Init(es));
      InitLast(es);
      NotedMore(Init(es), e, Lower, p.min, Note(p, e).min);
      NotedMore(Init(es), e, Upper, p.max, Note(p, e).max);
      forall t ensures t in Note(p, e).tags <==> HasTag(es, t) { HasTagMore(Init(es), e, t); }
    }
  }

  // ----- a passing row satisfies every conjunct

  lemma {:induction false} AtomsTrue(env: Env, get: Lookup, e: Expr, a: Expr)
    requires Eval(env, get, e).True? && a in Atoms(e)
    ensures Eval(env, get, a).True?
  {
    if e.And? {
      if a in Atoms(e.left) { AtomsTrue(env, get, e.left, a); } else { AtomsTrue(env, get, e.right, a); }
    }
  }

  lemma {:induction false} AllAtomsTrue(env: Env, get: Lookup, fs: seq<Expr>, a: Expr)
    requires Passes(env, get, fs) && a in AllAtoms(fs)
    ensures Eval(env, get, a).True?
  {
    if a in Atoms(Last(fs)) {
      AtomsTrue(env, get, Last(fs), a);
    } else {
      AllAtomsTrue(env, get, Init(fs), a);
    }
  }

  // ----- time comparisons, whatever casts surround them

  /** A row whose every column reads as instant t. */
  function AtTime(t: int): Lookup { (n: string) => Stamp(t) }

  lemma {:induction false} TimeValue(env: Env, get: Lookup, s: Scalar, t: int)
    requires ColName(s) == Some("time") && get("time") == Stamp(t)
    ensures Value(env, get, s) == Value(env, AtTime(t), s)
  {
    if s.Cast? { TimeValue(env, get, s.of, t); }
  }

  lemma {:induction false} LiteralValue(env: Env, get: Lookup, get': Lookup, s: Scalar)
    requires TsLiteral(s).Some?
    ensures Value(env, get, s) == Value(env, get', s)
  {
    if s.Cast? { LiteralValue(env, get, get', s.of); }
  }

  predicate TimeCmp(e: Expr) { Lower(e).Some? || Upper(e).Some? }

  /** A time comparison depends on the row's time alone. */
  lemma EvalAtTime(env: Env, get: Lookup, e: Expr, t: int)
    requires TimeCmp(e) && get("time") == Stamp(t)
    ensures Eval(env, get, e) == Eval(env, AtTime(t), e)
  {
    TimeValue(env, get, e.l, t);
    LiteralValue(env, get, AtTime(t), e.r);
  }

  /** Instant t lies beyond a literal lifted out of the comparison. */
  predicate Beyond(e: Expr, t: int) {
    (Lower(e).Some? && t < Lower(e).value) || (Upper(e).Some? && t > Upper(e).value)
  }

  /** The comparison is true of no instant beyond its literal. */
  ghost predicate Excludes(env: Env, e: Expr) {
    forall t :: Calendar.IsI64(t) && Beyond(e, t) ==> !Eval(env, AtTime(t), e).True?
  }

  ghost predicate AllExclude(env: Env, fs: seq<Expr>) {
    forall i :: 0 <= i < |AllAtoms(fs)| ==> Excludes(env, AllAtoms(fs)[i])
  }

  lemma ExcludesBounds(env: Env, get: Lookup, e: Expr, t: int)
    requires Excludes(env, e) && get("time") == Stamp(t) && Calendar.IsI64(t) && Eval(env, get, e).True?
    ensures !Beyond(e, t)
  {
    if TimeCmp(e) { EvalAtTime(env, get, e, t); }
  }

  /** A row that passes the filters lies within the extracted time bounds. */
  lemma PassesBounds(env: Env, get: Lookup, fs: seq<Expr>, t: int)
    requires AllExclude(env, fs) && Passes(env, get, fs) && get("time") == Stamp(t) && Calendar.IsI64(t)
    ensures var p := NoteAll(NOTHING, AllAtoms(fs));
            (p.min.Some? ==> p.min.value <= t) && (p.max.Some? ==> t <= p.max.value)
  {
    var es := AllAtoms(fs);
    var p := NoteAll(NOTHING, es);
    ExtractExact(es);
    if p.min.Some? {
      var i :| 0 <= i < |es| && Lower(es[i]) == p.min;
      AllAtomsTrue(env, get, fs, es[i]);
      ExcludesBounds(env, get, es[i], t);
    }
    if p.max.Some? {
      var i :| 0 <= i < |es| && Upper(es[i]) == p.max;
      AllAtomsTrue(env, get, fs, es[i]);
      ExcludesBounds(env, get, es[i], t);
    }
  }

  // ----- casts between resolutions

  /** Only resolution changes stand between the scalar and its column or literal. */
  predicate InstantOnly(s: Scalar) { s.Cast? ==> s.to.Instant? && InstantOnly(s.of) }

  /** What those casts do to an instant. */
  function Through(env: Env, s: Scalar, t: int): int {
    if s.Cast? && s.to.Instant? then env.conv(s.to.unit, Through(env, s.of, t)) else t
  }

  /** Changing resolution never reverses two instants. */
  ghost predicate Monotone(env: Env) { forall u, a, b :: a <= b ==> env.conv(u, a) <= env.conv(u, b) }

  lemma {:induction false} ThroughMonotone(env: Env, s: Scalar, a: int, b: int)
    requires Monotone(env) && a <= b
    ensures Through(env, s, a) <= Through(env, s, b)
  {
    if s.Cast? && s.to.Instant? { ThroughMonotone(env, s.of, a, b); }
  }

  lemma {:induction false} InstantValue(env: Env, s: Scalar, t: int)
    requires InstantOnly(s)
    ensures ColName(s).Some? ==> Value(env, AtTime(t), s) == Stamp(Through(env, s, t))
    ensures TsLiteral(s).Some? ==> Value(env, AtTime(t), s) == Stamp(Through(env, s, TsLiteral(s).value))
  {
    if s.Cast? { InstantValue(env, s.of, t); }
  }

  /** The comparison as one of integers. */
  predicate TrueAt(env: Env, e: Expr, t: int)
    requires e.Cmp? && TsLiteral(e.r).Some?
  {
    var x, y := Through(env, e.l, t), Through(env, e.r, TsLiteral(e.r).value);
    Rel(e.op, x < y, x == y)
  }

  lemma EvalIsTrueAt(env: Env, e: Expr, t: int)
    requires TimeCmp(e) && InstantOnly(e.l) && InstantOnly(e.r)
    ensures Eval(env, AtTime(t), e).True? <==> TrueAt(env, e, t)
  {
    InstantValue(env, e.l, t);
    InstantValue(env, e.r, t);
  }

  /** The nearest instant the literal excludes. */
  function Nearest(e: Expr): int
    requires TimeCmp(e)
  {
    if Lower(e).Some? then Lower(e).value - 1 else Upper(e).value + 1
  }

  /** A time comparison is tight when it is false of the nearest instant its literal excludes. */
  predicate Tight(env: Env, e: Expr)
    requires TimeCmp(e)
  {
    Calendar.IsI64(Nearest(e)) ==> !TrueAt(env, e, Nearest(e))
  }

  lemma NearestFirst(env: Env, e: Expr, t: int)
    requires Monotone(env) && TimeCmp(e) && Beyond(e, t) && TrueAt(env, e, t)
    ensures TrueAt(env, e, Nearest(e))
  {
    if Lower(e).Some? { ThroughMonotone(env, e.l, t, Nearest(e)); } else { ThroughMonotone(env, e.l, Nearest(e), t); }
  }

  /** Between resolutions one instant decides for all of them. */
  lemma TightIff(env: Env, e: Expr)
    requires Monotone(env) && TimeCmp(e) && InstantOnly(e.l) && InstantOnly(e.r) && Calendar.IsI64(TsLiteral(e.r).value)
    ensures Tight(env, e) <==> Excludes(env, e)
  {
    if Tight(env, e) {
      forall t | Calendar.IsI64(t) && Beyond(e, t) ensures !Eval(env, AtTime(t), e).True? {
        EvalIsTrueAt(env, e, t);
        if TrueAt(env, e, t) { NearestFirst(env, e, t); }
      }
    }
    if Excludes(env, e) && Calendar.IsI64(Nearest(e)) {
      assert Beyond(e, Nearest(e));
      EvalIsTrueAt(env, e, Nearest(e));
    }
  }

  lemma {:induction false} ThroughExact(env: Env, s: Scalar, t: int)
    requires forall u, a :: env.conv(u, a) == a
    ensures Through(env, s, t) == t
  {
    if s.Cast? && s.to.Instant? { ThroughExact(env, s.of, t); }
  }

  /** Value-preserving casts never let a comparison reach beyond its literal. */
  lemma PreservingExcludes(env: Env, e: Expr)
    requires forall u, a :: env.conv(u, a) == a
    requires e.Cmp? ==> InstantOnly(e.l) && InstantOnly(e.r)
    ensures Excludes(env, e)
  {
    if TimeCmp(e) {
      forall t | Calendar.IsI64(t) && Beyond(e, t) ensures !Eval(env, AtTime(t), e).True? {
        EvalIsTrueAt(env, e, t);
        ThroughExact(env, e.l, t);
        ThroughExact(env, e.r, TsLiteral(e.r).value);
      }
    }
  }

  /** `CAST(time AS TEXT) < CAST(literal AS TEXT)` */
  function TextCmp(a: int): Expr { Cmp(Lt, Cast(Col("time"), AsText), Cast(Lit(Nanos(Some(a))), AsText)) }

  lemma TextCmpIs(env: Env, a: int, b: int)
    ensures Upper(TextCmp(a)) == Some(a) && Lower(TextCmp(a)) == None
    ensures Eval(env, AtTime(b), TextCmp(a)).True? <==> Names.LexLess(env.render(Stamp(b)), env.render(Stamp(a)))
  {
    var c, k := Col("time"), Lit(Nanos(Some(a)));
    assert ColName(c) == Some("time") && TsLiteral(k) == Some(a);
    assert Value(env, AtTime(b), c) == Stamp(b) && Value(env, AtTime(b), k) == Stamp(a);
    assert Value(env, AtTime(b), Cast(c, AsText)) == CastTo(env, AsText, Stamp(b));
    assert Value(env, AtTime(b), Cast(k, AsText)) == CastTo(env, AsText, Stamp(a));
  }

  lemma AsTextHolds(env: Env, get: Lookup, name: string, c: Cell)
    requires get(name) == c && !c.Null? && !c.Text?
    ensures Eval(env, get, Cmp(Eq, Cast(Col(name), AsText), Lit(Utf8(Some(env.render(c)))))).True?
  {
    assert Value(env, get, Cast(Col(name), AsText)) == CastTo(env, AsText, Value(env, get, Col(name)));
  }

  // ----- tag literals

  /** A lookup that finds the text x. */
  function AtText(x: string): Lookup { (n: string) => Text(x) }

  /** The comparison is true of no text but its literal. */
  ghost predicate Pins(env: Env, e: Expr) {
    TagEq(e).Some? ==> forall x :: x != TagEq(e).value.1 ==> !Eval(env, AtText(x), e).True?
  }

  ghost predicate AllPin(env: Env, fs: seq<Expr>) {
    forall i :: 0 <= i < |AllAtoms(fs)| ==> Pins(env, AllAtoms(fs)[i])
  }

  /** What pruning by these filters relies on. */
  ghost predicate Prunable(env: Env, fs: seq<Expr>) { AllExclude(env, fs) && AllPin(env, fs) }

  lemma {:induction false} TextValue(env: Env, get: Lookup, s: Scalar)
    requires ColName(s).Some?
    ensures get(ColName(s).value).Null? ==> Value(env, get, s) == Null
    ensures get(ColName(s).value).Text? ==> Value(env, get, s) == Value(env, AtText(get(ColName(s).value).s), s)
  {
    if s.Cast? { TextValue(env, get, s.of); }
  }

  /** A tag comparison depends on the tag alone. */
  lemma EvalAtText(env: Env, get: Lookup, e: Expr, t: (string, string))
    requires TagEq(e) == Some(t)
    ensures get(t.0).Null? ==> !Eval(env, get, e).True?
    ensures get(t.0).Text? ==> Eval(env, get, e) == Eval(env, AtText(get(t.0).s), e)
  {
    TextValue(env, get, e.l);
  }

  /** Only casts to text stand between the scalar and its column. */
  predicate TextOnly(s: Scalar) { s.Cast? ==> s.to.AsText? && TextOnly(s.of) }

  lemma {:induction false} TextOnlyValue(env: Env, s: Scalar, x: string)
    requires ColName(s).Some? && TextOnly(s)
    ensures Value(env, AtText(x), s) == Text(x)
  {
    if s.Cast? { TextOnlyValue(env, s.of, x); }
  }

  lemma StrValue(s: Literal)
    requires StrLiteral(Lit(s)).Some?
    ensures LitValue(s) == Text(StrLiteral(Lit(s)).value)
  {
    if s.Dict? { assert LitValue(s) == LitValue(s.inner); }
  }

  /** Casts to text never let a comparison reach another text. */
  lemma TextOnlyPins(env: Env, e: Expr)
    requires e.Cmp? ==> TextOnly(e.l)
    ensures Pins(env, e)
  {
    if TagEq(e).Some? {
      StrValue(e.r.lit);
      forall x | x != TagEq(e).value.1 ensures !Eval(env, AtText(x), e).True? { TextOnlyValue(env, e.l, x); }
    }
  }

  /** A row that passes the filters carries every extracted tag literal. */
  lemma PassesTags(env: Env, get: Lookup, fs: seq<Expr>, t: (string, string))
    requires AllPin(env, fs) && Passes(env, get, fs) && t in NoteAll(NOTHING, AllAtoms(fs)).tags
    requires get(t.0).Text? || get(t.0).Null?
    ensures get(t.0) == Text(t.1)
  {
    var es := AllAtoms(fs);
    ExtractExact(es);
    var i :| 0 <= i < |es| && TagEq(es[i]) == Some(t);
    AllAtomsTrue(env, get, fs, es[i]);
    EvalAtText(env, get, es[i], t);
    assert Pins(env, es[i]);
  }

  /** `CAST(CAST(name AS BIGINT) AS VARCHAR) = s` */
  function NumberCmp(name: string, s: string): Expr { Cmp(Eq, Cast(Cast(Col(name), OtherType(0)), AsText), Lit(Utf8(Some(s)))) }

  lemma NumberCmpIs(env: Env, name: string, s: string, x: string, n: int)
    requires env.other(OtherType(0), Text(x)) == Cell.Value(1, n) && env.render(Cell.Value(1, n)) == s
    ensures TagEq(NumberCmp(name, s)) == Some((name, s)) && Eval(env, AtText(x), NumberCmp(name, s)).True?
  {
    var c := Cast(Col(name), OtherType(0));
    assert ColName(Col(name)) == Some(name) && ColName(c) == Some(name);
    assert Value(env, AtText(x), c) == CastTo(env, OtherType(0), Value(env, AtText(x), Col(name)));
    assert Value(env, AtText(x), Cast(c, AsText)) == CastTo(env, AsText, Value(env, AtText(x), c)) == Text(s);
  }
}
