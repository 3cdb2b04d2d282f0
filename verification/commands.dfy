/**
 * The command dispatcher `ejecutar_comando`: a table of prefixes of the
 * lower-cased text, each with an action taking the rest of the text (when
 * there is any) as its parameter. The effects the actions have on the
 * machine are values; whether carrying one out raises is an oracle.
 */
module Commands {
  import opened Wrappers
  import opened PyStr

  /** What a table entry does. */
  datatype Action =
    | Launch(program: String)   // a program started with no argument
    | OpenSite                  // a web page opened from the parameter
    | SearchVideo               // a video search for the parameter

  /** What an action does to the machine. */
  datatype Effect = Spawn(program: String) | Browse(url: String)

  datatype Command = Command(prefix: String, action: Action)

  /** The command table, in the order it is scanned. */
  const Table: seq<Command> := [
    Command("abrir chrome", Launch("chrome.exe")),
    Command("abrir notepad", Launch("notepad.exe")),
    Command("abrir calculadora", Launch("calc.exe")),
    Command("ir a ", OpenSite),
    Command("reproducir ", SearchVideo)
  ]

  const SecureScheme: String := "https://"
  const SearchBase: String := "https://www.youtube.com/results?search_query="

  /** An address that already names its scheme or host: it starts with `http` or `www`. */
  predicate Qualified(url: String) {
    StartsWith(url, "http") || StartsWith(url, "www")
  }

  /** The address `ir a` opens for `url`. */
  function SiteUrl(url: String): (r: String)
    ensures Qualified(r)
    ensures |url| <= |r| && r[|r| - |url|..] == url
    ensures r == url <==> Qualified(url)
    ensures !Qualified(url) ==> r == SecureScheme + url
  {
    if Qualified(url) then url
    else
      var r := SecureScheme + url;
      assert r[..4] == "http";
      r
  }

  /** Opening a site twice over is opening it once: a built address is kept as it is. */
  lemma SiteUrlIdempotent(url: String)
    ensures SiteUrl(SiteUrl(url)) == SiteUrl(url)
  {
  }

  /** The address `reproducir` opens for `query`; the query is not escaped. */
  function SearchUrl(query: String): (r: String)
    ensures StartsWith(r, SearchBase) && r[|SearchBase|..] == query
  {
    SearchBase + query
  }

  /** Two queries give the same search address only if they are the same query. */
  lemma SearchUrlInjective(q1: String, q2: String)
    ensures SearchUrl(q1) == SearchUrl(q2) ==> q1 == q2
  {
    if SearchUrl(q1) == SearchUrl(q2) {
      assert SearchUrl(q1)[|SearchBase|..] == SearchUrl(q2)[|SearchBase|..];
    }
  }

  /**
   * Calling an action with the parameter, or with no argument when there is
   * none: `None` when the call does not fit the action's arity and raises
   * `TypeError` before doing anything.
   */
  function Call(a: Action, param: Option<String>): (e: Option<Effect>)
    ensures e.Some? <==> (a.Launch? <==> param.None?)
    ensures e.Some? && a.Launch? ==> e.value == Spawn(a.program)
    ensures e.Some? && a.OpenSite? ==> e.value == Browse(SiteUrl(param.value))
    ensures e.Some? && a.SearchVideo? ==> e.value == Browse(SearchUrl(param.value))
  {
    match a
    case Launch(p) => if param.None? then Some(Spawn(p)) else None
    case OpenSite => if param.Some? then Some(Browse(SiteUrl(param.value))) else None
    case SearchVideo => if param.Some? then Some(Browse(SearchUrl(param.value))) else None
  }

  /** The parameter after a matched prefix: the rest of the text, stripped; `None` when that is empty. */
  function Param(lower: String, prefix: String): (p: Option<String>)
    requires |prefix| <= |lower|
    ensures p.None? <==> AllSpace(lower[|prefix|..])
    ensures p.Some? ==> p.value == Strip(lower[|prefix|..]) && Trimmed(p.value)
  {
    var rest := Strip(lower[|prefix|..]);
    StripEmpty(lower[|prefix|..]);
    if rest == [] then None else Some(rest)
  }

  /** Entry `i` of the table matches the lower-cased text. */
  predicate Matches(lower: String, i: nat)
    requires i < |Table|
  {
    StartsWith(lower, Table[i].prefix)
  }

  /** What calling the action of matching entry `i` would do. */
  function Attempt(lower: String, i: nat): Option<Effect>
    requires i < |Table| && Matches(lower, i)
  {
    Call(Table[i].action, Param(lower, Table[i].prefix))
  }

  /** Entry `i` matches, its action fits the parameter, and carrying out its effect does not raise. */
  predicate Fires(lower: String, i: nat, env: Effect -> bool)
    requires i < |Table|
  {
    Matches(lower, i) && Attempt(lower, i).Some? && env(Attempt(lower, i).value)
  }

  /** The first entry at or after `from` that fires. */
  function FirstFiring(lower: String, env: Effect -> bool, from: nat): (k: Option<nat>)
    requires from <= |Table|
    ensures k.Some? ==> from <= k.value < |Table| && Fires(lower, k.value, env)
    ensures forall j :: from <= j < |Table| && (k.None? || j < k.value) ==> !Fires(lower, j, env)
    decreases |Table| - from
  {
    if from == |Table| then None
    else if Fires(lower, from, env) then Some(from)
    else FirstFiring(lower, env, from + 1)
  }

  /** The prefixes logged as failed among the first `n` entries: those that match but do not fire, in order. */
  function Failures(lower: String, env: Effect -> bool, n: nat): (r: seq<String>)
    requires n <= |Table|
    ensures |r| <= n
    ensures forall k :: 0 <= k < |r| ==> StartsWith(lower, r[k])
    decreases n
  {
    if n == 0 then []
    else
      var before := Failures(lower, env, n - 1);
      if Matches(lower, n - 1) && !Fires(lower, n - 1, env) then before + [Table[n - 1].prefix]
      else before
  }

  /** The effect of the command a scan runs, if any. */
  function Dispatched(lower: String, env: Effect -> bool): Option<Effect> {
    match FirstFiring(lower, env, 0)
    case None => None
    case Some(k) => Attempt(lower, k)
  }

  /** The prefixes a scan logs as failed: those met before it stops. */
  function DispatchFailures(lower: String, env: Effect -> bool): seq<String> {
    var k := FirstFiring(lower, env, 0);
    Failures(lower, env, if k.Some? then k.value else |Table|)
  }

  /**
   * `ejecutar_comando(texto)`: scan the table in order; the first entry whose
   * prefix the lower-cased text starts with and whose action runs without
   * raising ends the scan with success. An entry whose action raises is
   * logged and the scan goes on. Returns whether a command ran, the effect
   * it had, and the prefixes logged as failed.
   */
  method Execute(texto: String, env: Effect -> bool) returns (ok: bool, effect: Option<Effect>, failed: seq<String>)
    ensures ok <==> FirstFiring(Lower(texto), env, 0).Some?
    ensures ok <==> effect.Some?
    ensures effect == Dispatched(Lower(texto), env)
    ensures failed == DispatchFailures(Lower(texto), env)
  {
    var lower := Lower(texto);
    failed := [];
    var i := 0;
    while i < |Table|
      invariant 0 <= i <= |Table|
      invariant FirstFiring(lower, env, 0) == FirstFiring(lower, env, i)
      invariant failed == Failures(lower, env, i)
    {
      var cmd := Table[i];
      if StartsWith(lower, cmd.prefix) {
        var e := Call(cmd.action, Param(lower, cmd.prefix));
        if e.Some? && env(e.value) {
          return true, e, failed;
        }
        failed := failed + [cmd.prefix];
      }
      i := i + 1;
    }
    return false, None, failed;
  }

  // ---------------------------------------------------------------------------
  // properties of the table

  /** No text matches two entries: the prefixes part ways before either ends. */
  lemma {:induction false} OnePrefixMatches(lower: String, i: nat, j: nat)
    requires i < |Table| && j < |Table| && i != j
    ensures !(Matches(lower, i) && Matches(lower, j))
  {
    var p, q := Table[i].prefix, Table[j].prefix;
    var d := if i >= 3 || j >= 3 then 0 else if i + j == 2 then 7 else 6;
    assert d < |p| && d < |q| && p[d] != q[d];
  }

  /**
   * Only the matching entry can be logged as failed, so one scan logs at
   * most one failure: the prefix of the entry that matches and does not fire.
   */
  lemma {:induction false} FailuresOfMatch(lower: String, env: Effect -> bool, n: nat)
    requires n <= |Table|
    ensures |Failures(lower, env, n)| <= 1
    ensures forall i :: 0 <= i < n && Matches(lower, i) ==>
      Failures(lower, env, n) == if Fires(lower, i, env) then [] else [Table[i].prefix]
    decreases n
  {
    if n > 0 {
      var m := n - 1;
      if Matches(lower, m) {
        forall i | 0 <= i < m ensures !Matches(lower, i) {
          OnePrefixMatches(lower, i, m);
        }
        FailuresNone(lower, env, m);
      } else {
        FailuresOfMatch(lower, env, m);
        assert Failures(lower, env, n) == Failures(lower, env, m);
      }
    }
  }

  /** Among entries that do not match, nothing is logged. */
  lemma {:induction false} FailuresNone(lower: String, env: Effect -> bool, n: nat)
    requires n <= |Table|
    requires forall i :: 0 <= i < n ==> !Matches(lower, i)
    ensures Failures(lower, env, n) == []
    decreases n
  {
    if n > 0 {
      FailuresNone(lower, env, n - 1);
    }
  }

  /**
   * One scan tries at most one action: when a command runs, nothing was
   * logged before it, and otherwise at most one failure is logged.
   */
  lemma {:induction false} ScanTriesOne(lower: String, env: Effect -> bool)
    ensures |DispatchFailures(lower, env)| <= 1
    ensures Dispatched(lower, env).Some? ==> DispatchFailures(lower, env) == []
  {
    var k := FirstFiring(lower, env, 0);
    if k.Some? {
      forall i | 0 <= i < k.value ensures !Matches(lower, i) {
        OnePrefixMatches(lower, i, k.value);
      }
      FailuresNone(lower, env, k.value);
    } else {
      FailuresOfMatch(lower, env, |Table|);
    }
  }

  /**
   * A launch command fires exactly when nothing but whitespace follows its
   * prefix and starting the program does not raise: "abrir chrome por favor"
   * launches nothing.
   */
  lemma LaunchFires(lower: String, i: nat, env: Effect -> bool)
    requires i < 3
    ensures Fires(lower, i, env) <==>
      Matches(lower, i) && AllSpace(lower[|Table[i].prefix|..]) && env(Spawn(Table[i].action.program))
  {
  }

  /** A site or search command fires exactly when some text follows its prefix and opening the page does not raise. */
  lemma BrowseFires(lower: String, i: nat, env: Effect -> bool)
    requires 3 <= i < |Table|
    ensures Fires(lower, i, env) <==>
      Matches(lower, i) && !AllSpace(lower[|Table[i].prefix|..]) &&
      env(Browse(if i == 3 then SiteUrl(Strip(lower[|Table[i].prefix|..])) else SearchUrl(Strip(lower[|Table[i].prefix|..]))))
  {
  }
}
