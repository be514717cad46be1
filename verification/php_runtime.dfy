/**
  Applying the `php` section to the running process, over an explicit
  environment record instead of process-global state: ini settings, defined
  constants and global variables. Within each map of the section every name
  occurs once, so the order in which its entries are applied does not matter
  and each loop is a map union.
 */
module PhpRuntime {
  import opened PhpSettings

  /** The process state the section is applied to. `consts` lists every defined constant under
      every name `defined()` accepts for it: PHP's TRUE, FALSE and NULL are defined in any
      letter case, so an environment that models them lists each spelling that may occur. */
  datatype Environment = Environment(
    ini: map<string, string>,
    consts: map<string, PhpValue>,
    globals: map<string, PhpValue>)

  /** PHP's string form of a constant's value, as an ini setting receives it. */
  function IniText(v: PhpValue): string {
    match v
    case PhpString(s) => s
    case PhpBool(b) => if b then "1" else ""
  }

  /** An ini value that names a constant already defined is replaced by that constant's value. */
  function ResolveIni(value: string, consts: map<string, PhpValue>): string {
    if value in consts then IniText(consts[value]) else value
  }

  /** ini entries first (resolved against the constants defined before the call), then
      constants (only those not yet defined), then globals (always overwritten). */
  function HandlePHPConfiguration(env: Environment, cfg: PhpConfiguration): (r: Environment)
    ensures r.ini.Keys == env.ini.Keys + cfg.ini.Keys
    ensures forall n :: n in cfg.ini ==> r.ini[n] == ResolveIni(cfg.ini[n], env.consts)
    ensures forall n :: n in env.ini && n !in cfg.ini ==> r.ini[n] == env.ini[n]
    ensures r.consts.Keys == env.consts.Keys + cfg.consts.Keys
    ensures forall n :: n in env.consts ==> r.consts[n] == env.consts[n]
    ensures forall n :: n in cfg.consts && n !in env.consts ==> r.consts[n] == cfg.consts[n]
    ensures r.globals.Keys == env.globals.Keys + cfg.vars.Keys
    ensures forall n :: n in cfg.vars ==> r.globals[n] == cfg.vars[n]
    ensures forall n :: n in env.globals && n !in cfg.vars ==> r.globals[n] == env.globals[n]
  {
    var ini := env.ini + map n | n in cfg.ini :: ResolveIni(cfg.ini[n], env.consts);
    var consts := cfg.consts + env.consts;
    var globals := env.globals + cfg.vars;
    Environment(ini, consts, globals)
  }

  /** Constants and globals settle after one application: a second one changes neither. */
  lemma ConstsAndGlobalsSettle(env: Environment, cfg: PhpConfiguration)
    ensures var once := HandlePHPConfiguration(env, cfg);
      var twice := HandlePHPConfiguration(once, cfg);
      twice.consts == once.consts && twice.globals == once.globals
  {
  }

  /** ini settings do not: an ini value naming a constant the same section defines is
      taken literally the first time and resolved the second time. */
  lemma IniResolutionDependsOnEarlierCalls()
    ensures var cfg := PhpConfiguration(map["error_reporting" := "DEBUG"], map["DEBUG" := PhpBool(true)], map[]);
      var once := HandlePHPConfiguration(Environment(map[], map[], map[]), cfg);
      var twice := HandlePHPConfiguration(once, cfg);
      once.ini["error_reporting"] == "DEBUG" && twice.ini["error_reporting"] == "1"
  {
  }
}
