/** The `scope` module of the standard library (`stack-std/src/scope.rs`):
    `where`, which tells what kind of binding a symbol names, and `dump`,
    which lists the scope's items. */
module Scope {

  import opened Results
  import Core

  /** The engine as `where` consults it: the names of its registered modules. */
  datatype Engine = Engine(modules: set<string>)

  /** What a failing `Context::stack_pop` reports; its contents are not part
      of this model. */
  datatype RunError = StackUnderflow

  /** The part of a name before its first `:`, or the whole name when it has
      none: the first item of `split(':')`. */
  function ModulePrefix(name: string): (p: string)
    ensures p <= name
    ensures ':' !in p
    ensures |p| < |name| ==> name[|p|] == ':'
  {
    if name == [] || name[0] == ':' then [] else [name[0]] + ModulePrefix(name[1..])
  }

  /** A name without `:` is its own prefix. */
  lemma {:induction false} BarePrefix(name: string)
    requires ':' !in name
    ensures ModulePrefix(name) == name
  {
    if name != [] {
      assert name[0] in name;
      assert ':' !in name[1..] by {
        forall k | 0 <= k < |name[1..]|
          ensures name[1..][k] != ':'
        {
          assert name[1..][k] == name[k + 1] && name[k + 1] in name;
        }
      }
      BarePrefix(name[1..]);
      assert [name[0]] + name[1..] == name;
    }
  }

  /** The prefix of `m:rest` is `m`. */
  lemma {:induction false} QualifiedPrefix(m: string, rest: string)
    requires ':' !in m
    ensures ModulePrefix(m + ":" + rest) == m
  {
    var name := m + ":" + rest;
    if m == [] {
      assert name[0] == ':';
    } else {
      assert m[0] in m;
      assert ':' !in m[1..] by {
        forall k | 0 <= k < |m[1..]|
          ensures m[1..][k] != ':'
        {
          assert m[1..][k] == m[k + 1] && m[k + 1] in m;
        }
      }
      QualifiedPrefix(m[1..], rest);
      assert name[0] == m[0] && name[1..] == m[1..] + ":" + rest;
      assert [m[0]] + m[1..] == m;
    }
  }

  /** The text `where` pushes for a symbol of each kind. */
  function Kind(word: string): Core.ExprKind
  {
    Core.ExprKind.String(word)
  }

  /** The classification `where` performs on the popped value. `intrinsics`
      stands for `Intrinsic::from_str`, `lets` for the names
      `Context::let_get` finds and `items` for those `Context::scope_item`
      finds. The first that applies wins: intrinsic, registered module
      (judged by the text before the first `:`), let binding, scope item;
      anything else, and any value that is not a symbol, gives `Nil`. */
  function Classify(v: Core.ExprKind, intrinsics: set<string>, engine: Engine,
                    lets: set<string>, items: set<string>): (r: Core.ExprKind)
    ensures r in {Kind("intrinsic"), Kind("module"), Kind("let"), Kind("scope"), Core.ExprKind.Nil}
    ensures r == Kind("intrinsic") <==> v.Symbol? && v.name in intrinsics
    ensures r == Kind("module") <==>
      v.Symbol? && v.name !in intrinsics && ModulePrefix(v.name) in engine.modules
    ensures r == Kind("let") <==>
      v.Symbol? && v.name !in intrinsics && ModulePrefix(v.name) !in engine.modules && v.name in lets
    ensures r == Kind("scope") <==>
      v.Symbol? && v.name !in intrinsics && ModulePrefix(v.name) !in engine.modules
      && v.name !in lets && v.name in items
    ensures !v.Symbol? ==> r == Core.ExprKind.Nil
  {
    match v
    case Symbol(x) =>
      if x in intrinsics then Kind("intrinsic")
      else if ModulePrefix(x) in engine.modules then Kind("module")
      else if x in lets then Kind("let")
      else if x in items then Kind("scope")
      else Core.ExprKind.Nil
    case _ => Core.ExprKind.Nil
  }

  /** A bare module name, not itself an intrinsic, is classified as a module
      whatever it is bound to. */
  lemma BareModuleName(name: string, intrinsics: set<string>, engine: Engine,
                       lets: set<string>, items: set<string>)
    requires ':' !in name && name in engine.modules && name !in intrinsics
    ensures Classify(Core.ExprKind.Symbol(name), intrinsics, engine, lets, items) == Kind("module")
  {
    BarePrefix(name);
  }

  /** `m:rest` is classified as a module when `m` is registered and the whole
      name is not an intrinsic. */
  lemma QualifiedModuleName(m: string, rest: string, intrinsics: set<string>, engine: Engine,
                            lets: set<string>, items: set<string>)
    requires ':' !in m && m in engine.modules && m + ":" + rest !in intrinsics
    ensures Classify(Core.ExprKind.Symbol(m + ":" + rest), intrinsics, engine, lets, items) == Kind("module")
  {
    QualifiedPrefix(m, rest);
  }

  /** A name bound both by `let` and in the scope is reported as `let`,
      unless it is an intrinsic or starts with a module's name. */
  lemma LetBeforeScope(name: string, intrinsics: set<string>, engine: Engine,
                       lets: set<string>, items: set<string>)
    requires ':' !in name && name !in intrinsics && name !in engine.modules
    requires name in lets && name in items
    ensures Classify(Core.ExprKind.Symbol(name), intrinsics, engine, lets, items) == Kind("let")
  {
    BarePrefix(name);
  }

  /** The names the scope's items are bound to. */
  function ItemNames(items: seq<(string, Option<Core.ExprKind>)>): (names: set<string>)
    ensures forall k :: 0 <= k < |items| ==> items[k].0 in names
    ensures forall name :: name in names ==> exists k :: 0 <= k < |items| && items[k].0 == name
  {
    if items == [] then {}
    else ItemNames(items[..|items| - 1]) + {items[|items| - 1].0}
  }

  /** The list `dump` builds: for each scope item, in order, the pair of its
      name as a symbol and its value, or `Nil` when it holds none. */
  function DumpEntries(items: seq<(string, Option<Core.ExprKind>)>): (entries: seq<Core.ExprKind>)
    ensures |entries| == |items|
    ensures forall k :: 0 <= k < |items| ==>
      entries[k] == Core.ExprKind.List([Core.ExprKind.Symbol(items[k].0), items[k].1.GetOr(Core.ExprKind.Nil)])
  {
    if items == [] then []
    else
      var (name, content) := items[|items| - 1];
      DumpEntries(items[..|items| - 1])
        + [Core.ExprKind.List([Core.ExprKind.Symbol(name), content.GetOr(Core.ExprKind.Nil)])]
  }

  /** The part of `Context` the two closures use: its stack, the names bound
      by `let`, and the scope's items with their (possibly absent) values. */
  class Context {
    var stack: seq<Core.ExprKind>
    var lets: map<string, Core.ExprKind>
    var items: seq<(string, Option<Core.ExprKind>)>

    constructor (lets: map<string, Core.ExprKind>, items: seq<(string, Option<Core.ExprKind>)>)
      ensures stack == [] && this.lets == lets && this.items == items
    {
      stack := [];
      this.lets := lets;
      this.items := items;
    }

    /** `Context::stack_pop`: the top value, or an error on an empty stack,
        which is then left as it was. */
    method StackPop() returns (r: Result<Core.ExprKind, RunError>)
      modifies this
      ensures old(stack) == [] ==> r == Err(StackUnderflow) && stack == []
      ensures old(stack) != [] ==>
        r == Ok(old(stack)[|old(stack)| - 1]) && stack == old(stack)[..|old(stack)| - 1]
      ensures lets == old(lets) && items == old(items)
    {
      if stack == [] {
        return Err(StackUnderflow);
      }
      r := Ok(stack[|stack| - 1]);
      stack := stack[..|stack| - 1];
    }

    /** `Context::stack_push`. */
    method StackPush(v: Core.ExprKind) returns (r: Result<(), RunError>)
      modifies this
      ensures r == Ok(()) && stack == old(stack) + [v]
      ensures lets == old(lets) && items == old(items)
    {
      stack := stack + [v];
      r := Ok(());
    }
  }

  /** The `where` function: pop one value and push its classification. On an
      empty stack the error is returned and nothing is pushed. */
  method Where(engine: Engine, intrinsics: set<string>, context: Context) returns (r: Result<(), RunError>)
    modifies context
    ensures old(context.stack) == [] ==> r.Err? && context.stack == []
    ensures old(context.stack) != [] ==>
      var n := |old(context.stack)|;
      && r == Ok(())
      && context.stack == old(context.stack)[..n - 1]
           + [Classify(old(context.stack)[n - 1], intrinsics, engine,
                       old(context.lets).Keys, ItemNames(old(context.items)))]
    ensures context.lets == old(context.lets) && context.items == old(context.items)
  {
    var symbol := context.StackPop();
    if symbol.Err? {
      return Err(symbol.error);
    }
    var kind := Classify(symbol.value, intrinsics, engine, context.lets.Keys, ItemNames(context.items));
    r := context.StackPush(kind);
  }

  /** The `dump` function: push one list with an entry per scope item. */
  method Dump(context: Context) returns (r: Result<(), RunError>)
    modifies context
    ensures r == Ok(())
    ensures context.stack == old(context.stack) + [Core.ExprKind.List(DumpEntries(old(context.items)))]
    ensures context.lets == old(context.lets) && context.items == old(context.items)
  {
    var entries := DumpEntries(context.items);
    r := context.StackPush(Core.ExprKind.List(entries));
  }
}
