/**
 * `register_subcommand` and the module-level table `subcommand_handlers` it
 * fills (lines 12-26).  The decorator returned by `register_subcommand` keeps
 * its own alias set, which every decoration extends in place before binding
 * each alias in the table.
 */
module Registry {
  import opened Wrappers

  /** A decorated Python function: its code, and its `__name__` when it has one. */
  datatype Handler = Handler(code: nat, name: Option<string>)

  /**
   * The table after binding every name of `names` to `f`: those names map to
   * `f`, every other key keeps its binding, and no other key appears.
   */
  function Bind(handlers: map<string, Handler>, names: set<string>, f: Handler): (r: map<string, Handler>)
    ensures r.Keys == handlers.Keys + names
    ensures forall n :: n in names ==> r[n] == f
    ensures forall n :: n in handlers && n !in names ==> r[n] == handlers[n]
  {
    map n | n in handlers.Keys + names :: if n in names then f else handlers[n]
  }

  /**
   * Lines 18-21: the name a decoration adds to the aliases, `name` when given and
   * otherwise the function's `__name__`, if it has one.
   */
  function OwnName(name: Option<string>, func: Handler): set<string> {
    if name.None? && func.name.Some? then {func.name.value}
    else if name.Some? then {name.value}
    else {}
  }

  /** The module-level dict `subcommand_handlers` (line 12). */
  class Table {
    var handlers: map<string, Handler>

    constructor ()
      ensures handlers == map[]
    {
      handlers := map[];
    }
  }

  /** The closure `decorate` that `register_subcommand(name, aliases)` returns. */
  class Decorator {
    const table: Table
    const name: Option<string>
    var aliases: set<string>

    /** Lines 15-16: the closure captures `name` and a fresh set of the aliases. */
    constructor (table: Table, name: Option<string>, aliases: seq<string>)
      ensures this.table == table && this.name == name
      ensures forall a :: a in this.aliases <==> a in aliases
    {
      this.table := table;
      this.name := name;
      this.aliases := set a | a in aliases;
    }

    /**
     * Lines 17-25: add the command's own name to the aliases, bind every alias
     * to `func` (overwriting earlier bindings, leaving other keys alone) and
     * return `func` itself.
     */
    method Decorate(func: Handler) returns (r: Handler)
      modifies this, table
      ensures r == func
      ensures aliases == old(aliases) + OwnName(name, func)
      ensures table.handlers == Bind(old(table.handlers), aliases, func)
    {
      aliases := aliases + OwnName(name, func);
      var unvisited := aliases;
      while unvisited != {}
        invariant aliases == old(aliases) + OwnName(name, func)
        invariant unvisited <= aliases
        invariant table.handlers == Bind(old(table.handlers), aliases - unvisited, func)
        decreases unvisited
      {
        var alias :| alias in unvisited;
        table.handlers := table.handlers[alias := func];
        unvisited := unvisited - {alias};
      }
      assert aliases - unvisited == aliases;
      return func;
    }
  }

  /**
   * A later decoration whose names include an earlier one's replaces all of the
   * earlier bindings: since a decorator's alias set only grows, decorating a
   * second function with the same decorator rebinds the first one's names.
   */
  lemma BindOverrides(handlers: map<string, Handler>, first: set<string>, second: set<string>, f: Handler, g: Handler)
    requires first <= second
    ensures Bind(Bind(handlers, first, f), second, g) == Bind(handlers, second, g)
  {
    var lhs, rhs := Bind(Bind(handlers, first, f), second, g), Bind(handlers, second, g);
    assert lhs.Keys == rhs.Keys;
  }

  /**
   * Lines 40 and 63: `release` under its `__name__` and the alias `rel`, then
   * `generate` under its `__name__` and `gen`.
   */
  method RegisterCommands(release: Handler, generate: Handler) returns (table: Table)
    requires release.name == Some("release") && generate.name == Some("generate")
    ensures table.handlers == map["rel" := release, "release" := release, "gen" := generate, "generate" := generate]
  {
    table := new Table();
    var forRelease := new Decorator(table, None, ["rel"]);
    var r := forRelease.Decorate(release);
    var forGenerate := new Decorator(table, None, ["gen"]);
    var g := forGenerate.Decorate(generate);
    CommandTable(release, generate);
  }

  /** The table the script's two registrations build, starting from an empty one. */
  lemma CommandTable(release: Handler, generate: Handler)
    ensures Bind(Bind(map[], {"rel", "release"}, release), {"gen", "generate"}, generate)
      == map["rel" := release, "release" := release, "gen" := generate, "generate" := generate]
  {
    var t := Bind(Bind(map[], {"rel", "release"}, release), {"gen", "generate"}, generate);
    assert t.Keys == {"rel", "release", "gen", "generate"};
  }
}
