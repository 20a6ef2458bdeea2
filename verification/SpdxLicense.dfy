/** Declared SPDX licences (companion/scripts/build_desktop.py): the tokenizer and the
    recursive-descent reader that decides an expression while it reads it.

    `AnyOf`, `AllOf` and `One` say what the three nested readers compute from a position;
    `Reader` is the reader itself, with its shared position and loops.  The grammar it
    implements is stated independently, as the trees whose printed form it accepts. */
module SpdxLicense {

  // ------------------------------------------------------------ expressions

  /** An expression as written: `Group` is a pair of parentheses. */
  datatype Tree =
    | License(id: string)
    | Excepted(id: string, exception: string)
    | And(left: Tree, right: Tree)
    | Or(left: Tree, right: Tree)
    | Group(inner: Tree)

  /** The meaning of an expression under an allowlist: an exception never makes a licence less allowed. */
  predicate Satisfied(t: Tree, allowed: set<string>) {
    match t
    case License(id) => id in allowed
    case Excepted(id, _) => id in allowed
    case And(l, r) => Satisfied(l, allowed) && Satisfied(r, allowed)
    case Or(l, r) => Satisfied(l, allowed) || Satisfied(r, allowed)
    case Group(inner) => Satisfied(inner, allowed)
  }

  function Print(t: Tree): (s: seq<string>)
    ensures |s| > 0
  {
    match t
    case License(id) => [id]
    case Excepted(id, exception) => [id, "WITH", exception]
    case And(l, r) => Print(l) + ["AND"] + Print(r)
    case Or(l, r) => Print(l) + ["OR"] + Print(r)
    case Group(inner) => ["("] + Print(inner) + [")"]
  }

  predicate Operand(token: string) {
    token != "(" && token != ")" && token != "AND" && token != "OR" && token != "WITH"
  }

  /** AND binds tighter than OR: an alternative inside an AND needs parentheses.  What follows
      WITH is not looked at. */
  predicate Sentence(t: Tree) {
    match t
    case License(id) => id !in {"(", ")", "AND", "OR", "WITH"}
    case Excepted(id, _) => id !in {"(", ")", "AND", "OR", "WITH"}
    case And(l, r) => Sentence(l) && Sentence(r) && !l.Or? && !r.Or?
    case Or(l, r) => Sentence(l) && Sentence(r)
    case Group(inner) => Sentence(inner)
  }

  // ------------------------------------------------- what the readers compute

  datatype Reading = Read(allowed: bool, next: nat) | Malformed

  predicate Next(tokens: seq<string>, p: nat, token: string) {
    p < |tokens| && tokens[p] == token
  }

  function AnyOf(tokens: seq<string>, p: nat, allowed: set<string>): (r: Reading)
    ensures r.Read? ==> p < r.next <= |tokens|
    decreases |tokens| - p, 2
  {
    var first := AllOf(tokens, p, allowed);
    if first.Malformed? then Malformed else OrTail(tokens, first.next, allowed, first.allowed)
  }

  function OrTail(tokens: seq<string>, p: nat, allowed: set<string>, so: bool): (r: Reading)
    requires p <= |tokens|
    ensures r.Read? ==> p <= r.next <= |tokens|
    decreases |tokens| - p, 0
  {
    if !Next(tokens, p, "OR") then Read(so, p)
    else
      var part := AllOf(tokens, p + 1, allowed);
      if part.Malformed? then Malformed else OrTail(tokens, part.next, allowed, part.allowed || so)
  }

  function AllOf(tokens: seq<string>, p: nat, allowed: set<string>): (r: Reading)
    ensures r.Read? ==> p < r.next <= |tokens|
    decreases |tokens| - p, 1
  {
    var first := One(tokens, p, allowed);
    if first.Malformed? then Malformed else AndTail(tokens, first.next, allowed, first.allowed)
  }

  function AndTail(tokens: seq<string>, p: nat, allowed: set<string>, so: bool): (r: Reading)
    requires p <= |tokens|
    ensures r.Read? ==> p <= r.next <= |tokens|
    decreases |tokens| - p, 0
  {
    if !Next(tokens, p, "AND") then Read(so, p)
    else
      var part := One(tokens, p + 1, allowed);
      if part.Malformed? then Malformed else AndTail(tokens, part.next, allowed, part.allowed && so)
  }

  function One(tokens: seq<string>, p: nat, allowed: set<string>): (r: Reading)
    ensures r.Read? ==> p < r.next <= |tokens|
    decreases |tokens| - p, 0
  {
    if p >= |tokens| then Malformed
    else if tokens[p] == "(" then
      var inner := AnyOf(tokens, p + 1, allowed);
      if inner.Malformed? || !Next(tokens, inner.next, ")") then Malformed else Read(inner.allowed, inner.next + 1)
    else if !Operand(tokens[p]) then Malformed
    else if !Next(tokens, p + 1, "WITH") then Read(tokens[p] in allowed, p + 1)
    else if p + 2 < |tokens| then Read(tokens[p] in allowed, p + 3)
    else Malformed
  }

  predicate Accepts(tokens: seq<string>, allowed: set<string>) {
    var r := AnyOf(tokens, 0, allowed);
    r.Read? && r.allowed && r.next == |tokens|
  }

  // --------------------------------------------------------- the reader itself

  class Reader {
    const tokens: seq<string>
    const allowlist: set<string>
    var position: nat

    constructor (tokens: seq<string>, allowlist: set<string>)
      ensures this.tokens == tokens && this.allowlist == allowlist && position == 0
    {
      this.tokens, this.allowlist, position := tokens, allowlist, 0;
    }

    /** The reading from `start` that ends here with this verdict, or a raised error. */
    ghost predicate Agrees(reading: Reading, failed: bool, allowed: bool)
      reads this
    {
      if failed then reading.Malformed? else reading == Read(allowed, position)
    }

    method ReadAny() returns (failed: bool, allowed: bool)
      modifies this
      ensures Agrees(AnyOf(tokens, old(position), allowlist), failed, allowed)
      decreases |tokens| - position, 2
    {
      failed, allowed := ReadAll();
      while !failed && Next(tokens, position, "OR")
        invariant failed ==> AnyOf(tokens, old(position), allowlist).Malformed?
        invariant !failed ==> old(position) < position <= |tokens|
        invariant !failed ==> AnyOf(tokens, old(position), allowlist) == OrTail(tokens, position, allowlist, allowed)
        decreases !failed, |tokens| - position
      {
        position := position + 1;
        var part;
        failed, part := ReadAll();
        allowed := part || allowed;
      }
    }

    method ReadAll() returns (failed: bool, allowed: bool)
      modifies this
      ensures Agrees(AllOf(tokens, old(position), allowlist), failed, allowed)
      decreases |tokens| - position, 1
    {
      failed, allowed := ReadOne();
      while !failed && Next(tokens, position, "AND")
        invariant failed ==> AllOf(tokens, old(position), allowlist).Malformed?
        invariant !failed ==> old(position) < position <= |tokens|
        invariant !failed ==> AllOf(tokens, old(position), allowlist) == AndTail(tokens, position, allowlist, allowed)
        decreases !failed, |tokens| - position
      {
        position := position + 1;
        var part;
        failed, part := ReadOne();
        allowed := part && allowed;
      }
    }

    method ReadOne() returns (failed: bool, allowed: bool)
      modifies this
      ensures Agrees(One(tokens, old(position), allowlist), failed, allowed)
      decreases |tokens| - position, 0
    {
      allowed := false;
      if position >= |tokens| { return true, false; }
      var token := tokens[position];
      position := position + 1;
      if token == "(" {
        failed, allowed := ReadAny();
        if failed || !Next(tokens, position, ")") { return true, false; }
        position := position + 1;
        return;
      }
      if !Operand(token) { return true, false; }
      if Next(tokens, position, "WITH") {
        if position + 1 >= |tokens| { return true, false; }
        position := position + 2;
      }
      return false, token in allowlist;
    }
  }

  /** The tokens decide: accepted exactly when they print a sentence the allowlist satisfies. */
  method ReadTokens(tokens: seq<string>, allowlist: set<string>) returns (allowed: bool)
    ensures allowed == Accepts(tokens, allowlist)
  {
    var reader := new Reader(tokens, allowlist);
    var failed, so := reader.ReadAny();
    return !failed && so && reader.position == |tokens|;
  }

  // ----------------------------------------------- printed sentences are read

  ghost predicate At(tokens: seq<string>, p: nat, s: seq<string>) {
    p + |s| <= |tokens| && forall k {:trigger s[k]} | 0 <= k < |s| :: tokens[p + k] == s[k]
  }

  lemma AtSplit(tokens: seq<string>, p: nat, a: seq<string>, token: string, b: seq<string>)
    requires At(tokens, p, a + [token] + b)
    ensures At(tokens, p, a) && Next(tokens, p + |a|, token) && At(tokens, p + |a| + 1, b)
  {
    var s := a + [token] + b;
    forall k | 0 <= k < |a| ensures tokens[p + k] == a[k] { assert s[k] == a[k]; }
    assert s[|a|] == token;
    forall k | 0 <= k < |b| ensures tokens[p + |a| + 1 + k] == b[k] { assert s[|a| + 1 + k] == b[k]; }
  }

  lemma {:induction false} OneReads(t: Tree, tokens: seq<string>, p: nat, allowed: set<string>)
    requires Sentence(t) && !t.And? && !t.Or?
    requires At(tokens, p, Print(t)) && !Next(tokens, p + |Print(t)|, "WITH")
    ensures One(tokens, p, allowed) == Read(Satisfied(t, allowed), p + |Print(t)|)
    decreases t, 0
  {
    assert tokens[p + 0] == Print(t)[0];
    match t
    case License(id) =>
    case Excepted(id, exception) => assert tokens[p + 1] == Print(t)[1];
    case Group(inner) =>
      assert Print(t) == [] + ["("] + (Print(inner) + [")"] + []);
      AtSplit(tokens, p, [], "(", Print(inner) + [")"] + []);
      AtSplit(tokens, p + 1, Print(inner), ")", []);
      AnyReads(inner, tokens, p + 1, allowed);
  }

  lemma {:induction false} AllReads(t: Tree, tokens: seq<string>, p: nat, allowed: set<string>)
    requires Sentence(t) && !t.Or?
    requires At(tokens, p, Print(t)) && !Next(tokens, p + |Print(t)|, "WITH")
    ensures AllOf(tokens, p, allowed) == AndTail(tokens, p + |Print(t)|, allowed, Satisfied(t, allowed))
    decreases t, 1
  {
    if t.And? {
      AtSplit(tokens, p, Print(t.left), "AND", Print(t.right));
      AllReads(t.left, tokens, p, allowed);
      AndTailReads(t.right, tokens, p + |Print(t.left)|, allowed, Satisfied(t.left, allowed));
    } else {
      OneReads(t, tokens, p, allowed);
    }
  }

  lemma {:induction false} AndTailReads(t: Tree, tokens: seq<string>, p: nat, allowed: set<string>, so: bool)
    requires Sentence(t) && !t.Or? && Next(tokens, p, "AND")
    requires At(tokens, p + 1, Print(t)) && !Next(tokens, p + 1 + |Print(t)|, "WITH")
    ensures AndTail(tokens, p, allowed, so) == AndTail(tokens, p + 1 + |Print(t)|, allowed, so && Satisfied(t, allowed))
    decreases t, 1
  {
    if t.And? {
      AtSplit(tokens, p + 1, Print(t.left), "AND", Print(t.right));
      AndTailReads(t.left, tokens, p, allowed, so);
      AndTailReads(t.right, tokens, p + 1 + |Print(t.left)|, allowed, so && Satisfied(t.left, allowed));
    } else {
      OneReads(t, tokens, p + 1, allowed);
    }
  }

  lemma {:induction false} AnyReads(t: Tree, tokens: seq<string>, p: nat, allowed: set<string>)
    requires Sentence(t) && At(tokens, p, Print(t))
    requires !Next(tokens, p + |Print(t)|, "WITH") && !Next(tokens, p + |Print(t)|, "AND")
    ensures AnyOf(tokens, p, allowed) == OrTail(tokens, p + |Print(t)|, allowed, Satisfied(t, allowed))
    decreases t, 2
  {
    if t.Or? {
      AtSplit(tokens, p, Print(t.left), "OR", Print(t.right));
      AnyReads(t.left, tokens, p, allowed);
      OrTailReads(t.right, tokens, p + |Print(t.left)|, allowed, Satisfied(t.left, allowed));
    } else {
      AllReads(t, tokens, p, allowed);
    }
  }

  lemma {:induction false} OrTailReads(t: Tree, tokens: seq<string>, p: nat, allowed: set<string>, so: bool)
    requires Sentence(t) && Next(tokens, p, "OR") && At(tokens, p + 1, Print(t))
    requires !Next(tokens, p + 1 + |Print(t)|, "WITH") && !Next(tokens, p + 1 + |Print(t)|, "AND")
    ensures OrTail(tokens, p, allowed, so) == OrTail(tokens, p + 1 + |Print(t)|, allowed, so || Satisfied(t, allowed))
    decreases t, 2
  {
    if t.Or? {
      AtSplit(tokens, p + 1, Print(t.left), "OR", Print(t.right));
      OrTailReads(t.left, tokens, p, allowed, so);
      OrTailReads(t.right, tokens, p + 1 + |Print(t.left)|, allowed, so || Satisfied(t.left, allowed));
    } else {
      AllReads(t, tokens, p + 1, allowed);
    }
  }

  /** Reading back any printed sentence gives its meaning. */
  lemma PrintedIsRead(t: Tree, allowed: set<string>)
    requires Sentence(t)
    ensures AnyOf(Print(t), 0, allowed) == Read(Satisfied(t, allowed), |Print(t)|)
    ensures Accepts(Print(t), allowed) <==> Satisfied(t, allowed)
  {
    AnyReads(t, Print(t), 0, allowed);
  }

  // ------------------------------------------------ what is read is a sentence

  /** `t` is a sentence printed at [p, q) with this meaning. */
  ghost predicate Spans(t: Tree, tokens: seq<string>, p: nat, q: nat, allowed: set<string>, so: bool) {
    Sentence(t) && p <= q <= |tokens| && tokens[p..q] == Print(t) && Satisfied(t, allowed) == so
  }

  lemma Joined(tokens: seq<string>, p: nat, m: nat, q: nat)
    requires p <= m < q <= |tokens|
    ensures tokens[p..q] == tokens[p..m] + [tokens[m]] + tokens[m + 1..q]
  {
  }

  lemma {:induction false} OneSound(tokens: seq<string>, p: nat, allowed: set<string>) returns (t: Tree)
    requires One(tokens, p, allowed).Read?
    ensures var r := One(tokens, p, allowed); Spans(t, tokens, p, r.next, allowed, r.allowed) && !t.And? && !t.Or?
    decreases |tokens| - p, 0
  {
    var next := One(tokens, p, allowed).next;
    if tokens[p] == "(" {
      var inner := AnySound(tokens, p + 1, allowed);
      t := Group(inner);
      Joined(tokens, p, p, next);
      Joined(tokens, p + 1, next - 1, next);
    } else if Next(tokens, p + 1, "WITH") {
      t := Excepted(tokens[p], tokens[p + 2]);
      assert tokens[p..p + 3] == [tokens[p], tokens[p + 1], tokens[p + 2]];
    } else {
      t := License(tokens[p]);
    }
  }

  lemma {:induction false} AllSound(tokens: seq<string>, p: nat, allowed: set<string>) returns (t: Tree)
    requires AllOf(tokens, p, allowed).Read?
    ensures var r := AllOf(tokens, p, allowed); Spans(t, tokens, p, r.next, allowed, r.allowed) && !t.Or?
    decreases |tokens| - p, 1
  {
    var first := OneSound(tokens, p, allowed);
    t := AndTailSound(first, tokens, p, One(tokens, p, allowed).next, allowed);
  }

  lemma {:induction false} AndTailSound(so: Tree, tokens: seq<string>, p: nat, m: nat, allowed: set<string>) returns (t: Tree)
    requires p < m && Spans(so, tokens, p, m, allowed, Satisfied(so, allowed)) && !so.Or?
    requires AndTail(tokens, m, allowed, Satisfied(so, allowed)).Read?
    ensures var r := AndTail(tokens, m, allowed, Satisfied(so, allowed)); Spans(t, tokens, p, r.next, allowed, r.allowed) && !t.Or?
    decreases |tokens| - m, 0
  {
    if Next(tokens, m, "AND") {
      var part := OneSound(tokens, m + 1, allowed);
      var q := One(tokens, m + 1, allowed).next;
      Joined(tokens, p, m, q);
      t := AndTailSound(And(so, part), tokens, p, q, allowed);
    } else {
      t := so;
    }
  }

  lemma {:induction false} AnySound(tokens: seq<string>, p: nat, allowed: set<string>) returns (t: Tree)
    requires AnyOf(tokens, p, allowed).Read?
    ensures var r := AnyOf(tokens, p, allowed); Spans(t, tokens, p, r.next, allowed, r.allowed)
    decreases |tokens| - p, 2
  {
    var first := AllSound(tokens, p, allowed);
    t := OrTailSound(first, tokens, p, AllOf(tokens, p, allowed).next, allowed);
  }

  lemma {:induction false} OrTailSound(so: Tree, tokens: seq<string>, p: nat, m: nat, allowed: set<string>) returns (t: Tree)
    requires p < m && Spans(so, tokens, p, m, allowed, Satisfied(so, allowed))
    requires OrTail(tokens, m, allowed, Satisfied(so, allowed)).Read?
    ensures var r := OrTail(tokens, m, allowed, Satisfied(so, allowed)); Spans(t, tokens, p, r.next, allowed, r.allowed)
    decreases |tokens| - m, 0
  {
    if Next(tokens, m, "OR") {
      var part := AllSound(tokens, m + 1, allowed);
      var q := AllOf(tokens, m + 1, allowed).next;
      Joined(tokens, p, m, q);
      t := OrTailSound(Or(so, part), tokens, p, q, allowed);
    } else {
      t := so;
    }
  }

  ghost predicate Shows(t: Tree, tokens: seq<string>, allowed: set<string>) {
    Sentence(t) && Print(t) == tokens && Satisfied(t, allowed)
  }

  /** The decision, for every list of tokens: accepted exactly when the whole list prints a
      sentence that the allowlist satisfies. */
  lemma AcceptsIff(tokens: seq<string>, allowed: set<string>)
    ensures Accepts(tokens, allowed) <==> exists t :: Shows(t, tokens, allowed)
  {
    if Accepts(tokens, allowed) {
      var t := AnySound(tokens, 0, allowed);
      assert tokens[0..|tokens|] == tokens;
      assert Shows(t, tokens, allowed);
    }
    forall t | Shows(t, tokens, allowed) ensures Accepts(tokens, allowed) {
      PrintedIsRead(t, allowed);
    }
  }

  /** The printed form leaves no ambiguity: two sentences that print alike mean the same. */
  lemma PrintDeterminesMeaning(t: Tree, u: Tree, allowed: set<string>)
    requires Sentence(t) && Sentence(u) && Print(t) == Print(u)
    ensures Satisfied(t, allowed) == Satisfied(u, allowed)
  {
    PrintedIsRead(t, allowed);
    PrintedIsRead(u, allowed);
  }

  // ------------------------------------------------------- styles of printing

  predicate OperandsNamed(t: Tree) {
    match t
    case License(id) => Operand(id)
    case Excepted(id, _) => Operand(id)
    case And(l, r) => OperandsNamed(l) && OperandsNamed(r)
    case Or(l, r) => OperandsNamed(l) && OperandsNamed(r)
    case Group(inner) => OperandsNamed(inner)
  }

  /** Parentheses only where an OR stands inside an AND. */
  function Minimal(t: Tree): Tree {
    match t
    case License(_) => t
    case Excepted(_, _) => t
    case Group(inner) => Minimal(inner)
    case Or(l, r) => Or(Minimal(l), Minimal(r))
    case And(l, r) => And(Tight(Minimal(l)), Tight(Minimal(r)))
  }

  function Tight(t: Tree): Tree { if t.Or? then Group(t) else t }

  /** Parentheses around every AND and every OR. */
  function Full(t: Tree): Tree {
    match t
    case License(_) => t
    case Excepted(_, _) => t
    case Group(inner) => Group(Full(inner))
    case Or(l, r) => Group(Or(Full(l), Full(r)))
    case And(l, r) => Group(And(Full(l), Full(r)))
  }

  lemma {:induction false} StylesKeepMeaning(t: Tree, allowed: set<string>)
    requires OperandsNamed(t)
    ensures Sentence(Minimal(t)) && Satisfied(Minimal(t), allowed) == Satisfied(t, allowed)
    ensures Sentence(Full(t)) && !Full(t).Or? && Satisfied(Full(t), allowed) == Satisfied(t, allowed)
  {
    match t
    case License(_) =>
    case Excepted(_, _) =>
    case Group(inner) => StylesKeepMeaning(inner, allowed);
    case Or(l, r) => StylesKeepMeaning(l, allowed); StylesKeepMeaning(r, allowed);
    case And(l, r) => StylesKeepMeaning(l, allowed); StylesKeepMeaning(r, allowed);
  }

  /** Any expression, printed with as few or as many parentheses as possible, is decided by its meaning. */
  lemma PrintingStyles(t: Tree, allowed: set<string>)
    requires OperandsNamed(t)
    ensures Accepts(Print(Minimal(t)), allowed) <==> Satisfied(t, allowed)
    ensures Accepts(Print(Full(t)), allowed) <==> Satisfied(t, allowed)
  {
    StylesKeepMeaning(t, allowed);
    PrintedIsRead(Minimal(t), allowed);
    PrintedIsRead(Full(t), allowed);
  }
}
