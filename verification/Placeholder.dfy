/** Filling the placeholders of a query template in place. */
module Placeholder {
  import opened Basics

  const MARK := "{?}"

  predicate Occurs(s: string, i: nat) { i + 3 <= |s| && s[i] == '{' && s[i + 1] == '?' && s[i + 2] == '}' }

  /** The first placeholder at or after a position. */
  function Find(s: string, pos: nat): (r: Option<nat>)
    ensures r.Some? ==> pos <= r.value && Occurs(s, r.value) && forall i | pos <= i < r.value :: !Occurs(s, i)
    ensures r.None? ==> forall i: nat | pos <= i :: !Occurs(s, i)
    decreases |s| - pos
  {
    if pos >= |s| then None
    else if Occurs(s, pos) then Some(pos)
    else Find(s, pos + 1)
  }

  // ----- a template is its pieces with placeholders between them

  function Pieces(t: string): (ps: seq<string>)
    ensures ps != []
  {
    match Find(t, 0)
    case None => [t]
    case Some(p) => [t[..p]] + Pieces(t[p + 3..])
  }

  function Glue(ps: seq<string>): string
    requires ps != []
  {
    if |ps| == 1 then ps[0] else ps[0] + MARK + Glue(ps[1..])
  }

  ghost predicate Free(s: string) { forall i: nat :: !Occurs(s, i) }

  ghost predicate AllFree(ps: seq<string>) { forall k | 0 <= k < |ps| :: Free(ps[k]) }

  function Quoted(escape: string -> string, arg: string): string { "'" + escape(arg) + "'" }

  /** The k-th placeholder is filled with the k-th argument, quoted and escaped, as long as there are both. */
  function Filled(escape: string -> string, ps: seq<string>, args: seq<string>): string
    requires ps != []
  {
    if |ps| == 1 then ps[0]
    else ps[0] + (if args == [] then MARK else Quoted(escape, args[0])) + Filled(escape, ps[1..], if args == [] then [] else args[1..])
  }

  /** The pieces hold no placeholder, and putting the placeholders back gives the template. */
  lemma {:induction false} PiecesGlue(t: string)
    ensures Glue(Pieces(t)) == t && AllFree(Pieces(t))
  {
    match Find(t, 0)
    case None =>
    case Some(p) =>
      PiecesGlue(t[p + 3..]);
      assert t == t[..p] + MARK + t[p + 3..];
      assert Pieces(t)[1..] == Pieces(t[p + 3..]);
      forall i: nat ensures !Occurs(t[..p], i) {
        assert Occurs(t[..p], i) ==> Occurs(t, i);
      }
  }

  /** No other pieces do: a placeholder cannot begin in a piece and end in the next placeholder. */
  lemma {:induction false} PiecesUnique(ps: seq<string>)
    requires ps != [] && AllFree(ps)
    ensures Pieces(Glue(ps)) == ps
  {
    var t := Glue(ps);
    if |ps| > 1 {
      var p, rest := |ps[0]|, Glue(ps[1..]);
      assert t == ps[0] + MARK + rest;
      assert Occurs(t, p);
      forall i: nat | i < p ensures !Occurs(t, i) {
        if i + 3 <= p {
          assert !Occurs(ps[0], i);
        }
      }
      assert Find(t, 0) == Some(p);
      assert t[..p] == ps[0] && t[p + 3..] == rest;
      PiecesUnique(ps[1..]);
    }
  }

  /** Filling with no arguments leaves the template. */
  lemma {:induction false} FilledWithNone(escape: string -> string, ps: seq<string>)
    requires ps != []
    ensures Filled(escape, ps, []) == Glue(ps)
  {
    if |ps| > 1 {
      FilledWithNone(escape, ps[1..]);
    }
  }

  // ----- the loop

  function Substituted(escape: string -> string, t: string, args: seq<string>): string {
    Filled(escape, Pieces(t), args)
  }

  /** One placeholder is replaced by the argument, escaped and between quotes. */
  lemma FillsOne(escape: string -> string, before: string, after: string, arg: string)
    requires Free(before) && Free(after)
    ensures Substituted(escape, before + MARK + after, [arg]) == before + ("'" + escape(arg) + "'") + after
  {
    var ps := [before, after];
    assert ps[1..] == [after];
    PiecesUnique(ps);
    assert Glue(ps) == before + MARK + after;
    var quoted := Quoted(escape, arg);
    assert Filled(escape, ps[1..], [arg][1..]) == after;
    assert Filled(escape, ps, [arg]) == before + quoted + after;
    assert quoted == "'" + escape(arg) + "'";
  }

  lemma FindBehind(done: string, rest: string)
    ensures Find(done + rest, |done|) == match Find(rest, 0) case None => None case Some(p) => Some(|done| + p)
  {
    forall i: nat ensures Occurs(done + rest, |done| + i) <==> Occurs(rest, i) {
    }
    var r := Find(done + rest, |done|);
    if r.Some? {
      assert Occurs(rest, r.value - |done|);
    }
    if Find(rest, 0).Some? {
      assert Occurs(done + rest, |done| + Find(rest, 0).value);
    }
  }

  lemma SubstituteFirst(escape: string -> string, t: string, args: seq<string>, p: nat)
    requires Find(t, 0) == Some(p) && args != []
    ensures Substituted(escape, t, args) == t[..p] + Quoted(escape, args[0]) + Substituted(escape, t[p + 3..], args[1..])
  {
    assert Pieces(t)[1..] == Pieces(t[p + 3..]);
  }

  lemma SubstituteRest(escape: string -> string, t: string, args: seq<string>)
    requires Find(t, 0).None? || args == []
    ensures Substituted(escape, t, args) == t
  {
    if args == [] {
      FilledWithNone(escape, Pieces(t));
      PiecesGlue(t);
    }
  }

  lemma ReplaceFirst(done: string, rest: string, p: nat, safe: string)
    requires p + 3 <= |rest|
    ensures var s, at := done + rest, |done| + p;
            s[..at] + safe + s[at + 3..] == (done + rest[..p] + safe) + rest[p + 3..]
  {
  }

  /** std::string::replace of a placeholder. */
  function Replace(s: string, at: nat, safe: string): string
    requires at + 3 <= |s|
  {
    s[..at] + safe + s[at + 3..]
  }

  /** One replacement, seen as moving the boundary between what is done and the rest of the template. */
  lemma Step(escape: string -> string, done: string, rest: string, args: seq<string>, k: nat, at: nat) returns (done': string, rest': string)
    requires k < |args| && Find(done + rest, |done|) == Some(at)
    ensures var safe := Quoted(escape, args[k]);
            |rest'| < |rest| && |done'| == at + |safe| && done' + rest' == Replace(done + rest, at, safe)
    ensures done' + Substituted(escape, rest', args[k + 1..]) == done + Substituted(escape, rest, args[k..])
  {
    FindBehind(done, rest);
    var p, safe := at - |done|, Quoted(escape, args[k]);
    SubstituteFirst(escape, rest, args[k..], p);
    ReplaceFirst(done, rest, p, safe);
    RegroupThree(done, rest[..p], safe, Substituted(escape, rest[p + 3..], args[k + 1..]));
    done', rest' := done + rest[..p] + safe, rest[p + 3..];
  }

  method Substitute(escape: string -> string, template: string, args: seq<string>) returns (clause: string)
    ensures clause == Substituted(escape, template, args)
  {
    clause := template;
    var pos, index := 0, 0;
    ghost var done, rest := "", template;
    var found := Find(clause, pos);
    assert args[0..] == args;
    while found.Some? && index < |args|
      invariant index <= |args| && clause == done + rest && pos == |done|
      invariant found == Find(clause, pos)
      invariant done + Substituted(escape, rest, args[index..]) == Substituted(escape, template, args)
      decreases |rest|
    {
      var safe := Quoted(escape, args[index]);
      done, rest := Step(escape, done, rest, args, index, found.value);
      clause := Replace(clause, found.value, safe);
      pos := found.value + |safe|;
      index := index + 1;
      found := Find(clause, pos);
    }
    FindBehind(done, rest);
    SubstituteRest(escape, rest, args[index..]);
  }

  /** What a C string shows of a string: what comes before a NUL. */
  function UpToNul(s: string): string { if s == "" || s[0] == '\0' then "" else [s[0]] + UpToNul(s[1..]) }

  method QueryText(escape: string -> string, table: string, template: string, args: seq<string>) returns (sql: string)
    ensures template == "" ==> sql == "select * from " + UpToNul(table)
    ensures template != "" ==>
              sql == "select * from " + UpToNul(table) + " where " + Substituted(escape, template, args)
  {
    var clause := Substitute(escape, template, args);
    NeverEmptied(escape, template, args);
    if clause != "" {
      sql := "select * from " + UpToNul(table) + " where " + clause;
    } else {
      sql := "select * from " + UpToNul(table);
    }
  }

  lemma NeverEmptied(escape: string -> string, t: string, args: seq<string>)
    ensures Substituted(escape, t, args) == "" <==> t == ""
  {
    if t == "" {
      SubstituteRest(escape, t, args);
    }
  }
}
