/**
 * The launcher: session names from the session files, the proxy list, the
 * guarded creation of one client per session, and the round-robin
 * assignment of proxies to workers.
 *
 * The file system enters as values: the paths `glob` returned (in any
 * order) and the rows of the proxy file. Parsing one proxy row is a
 * parameter.
 */
module Launcher {
  import opened Wrappers
  import opened Text
  import opened StringOrder

  const SessionsDir: string := "sessions/"
  const SessionSuffix: string := ".session"

  /** `os.path.basename`: what follows the last `/`. */
  function Basename(p: string): (r: string)
    ensures '/' !in r
    ensures '/' !in p ==> r == p
    ensures |r| <= |p| && r == p[|p| - |r|..]
    ensures '/' in p ==> |r| < |p| && p[|p| - |r| - 1] == '/'
  {
    match RFind(p, '/')
    case None => p
    case Some(i) => p[i + 1..]
  }

  /** Some character of `s` before index `d` is not a dot. */
  predicate NonDotBefore(s: string, d: nat)
    requires d <= |s|
  {
    exists k :: 0 <= k < d && s[k] != '.'
  }

  /**
   * `os.path.splitext(name)[0]` for a name without `/`: cut at the last
   * dot, unless only dots precede it (`.bashrc` keeps its dot).
   */
  function StripExtension(name: string): (r: string)
    ensures |r| <= |name| && r == name[..|r|]
    ensures '.' !in name ==> r == name
    ensures |r| < |name| ==> name[|r|] == '.' && '.' !in name[|r| + 1..] && NonDotBefore(name, |r|)
    ensures forall d :: 0 <= d < |name| && name[d] == '.' && '.' !in name[d + 1..] ==>
      r == if NonDotBefore(name, d) then name[..d] else name
  {
    match RFind(name, '.')
    case None => name
    case Some(d) =>
      if NonDotBefore(name, d) then name[..d] else name
  }

  /** `os.path.splitext(os.path.basename(file))[0]`. */
  function SessionName(p: string): string
  {
    StripExtension(Basename(p))
  }

  /** A name the session glob can match: no `/`, and not hidden. */
  predicate GlobName(x: string)
  {
    x != [] && x[0] != '.' && '/' !in x
  }

  function SessionPath(x: string): string
  {
    SessionsDir + x + SessionSuffix
  }

  /** The base name of `dir` + `base`, where `dir` ends in `/`, is `base`. */
  lemma BasenameAfterSlash(dir: string, base: string)
    requires |dir| > 0 && dir[|dir| - 1] == '/' && '/' !in base
    ensures Basename(dir + base) == base
  {
    var p := dir + base;
    assert p[|dir| - 1] == '/';
    assert forall k :: |dir| <= k < |p| ==> p[k] == base[k - |dir|];
    var i := RFind(p, '/').value;
    assert i == |dir| - 1;
    assert p[i + 1..] == base;
  }

  /** Stripping `ext` (a dot and no other) from `x` + `ext` gives `x` when `x` starts with a non-dot. */
  lemma StripOneExtension(x: string, ext: string)
    requires x != [] && x[0] != '.'
    requires ext != [] && ext[0] == '.' && '.' !in ext[1..]
    ensures StripExtension(x + ext) == x
  {
    var name := x + ext;
    assert name[|x|] == '.';
    assert forall k :: |x| < k < |name| ==> name[k] == ext[1..][k - |x| - 1];
    var d := RFind(name, '.').value;
    assert d == |x|;
    assert name[0] == x[0];
    assert NonDotBefore(name, d);
    assert name[..d] == x;
  }

  /** A session file path gives back the name it was made from. */
  lemma SessionNameOfPath(x: string)
    requires GlobName(x)
    ensures SessionName(SessionPath(x)) == x
  {
    var base := x + SessionSuffix;
    assert SessionPath(x) == SessionsDir + base;
    assert '/' !in base by {
      forall k | 0 <= k < |base| ensures base[k] != '/' {
        if k < |x| { assert base[k] == x[k]; }
      }
    }
    BasenameAfterSlash(SessionsDir, base);
    StripOneExtension(x, SessionSuffix);
  }

  /** `get_session_names`: the session names, in the order of the sorted paths. */
  function GetSessionNames(paths: seq<string>): (names: seq<string>)
    ensures |names| == |paths|
    ensures forall i :: 0 <= i < |names| ==> names[i] == SessionName(Sort(paths)[i])
  {
    var sorted := Sort(paths);
    seq(|sorted|, i requires 0 <= i < |sorted| => SessionName(sorted[i]))
  }

  /** The paths of the session files `xs`, in the same order. */
  ghost predicate FilesOf(paths: seq<string>, xs: seq<string>)
  {
    |paths| == |xs| &&
    forall k :: 0 <= k < |xs| ==> GlobName(xs[k]) && paths[k] == SessionPath(xs[k])
  }

  /** Each listed name is that of a session file, and its path is the sorted path at its position. */
  lemma NameOfSortedPath(xs: seq<string>, paths: seq<string>, i: nat)
    requires FilesOf(paths, xs) && i < |paths|
    ensures GetSessionNames(paths)[i] in xs
    ensures Sort(paths)[i] == SessionPath(GetSessionNames(paths)[i])
  {
    var sorted := Sort(paths);
    SortPermutes(paths);
    assert sorted[i] in multiset(paths);
    var k :| 0 <= k < |paths| && paths[k] == sorted[i];
    SessionNameOfPath(xs[k]);
  }

  /**
   * For the files of the sessions `xs`, listed in any order, the names are
   * exactly `xs`, and they follow the order of their paths.
   */
  lemma SessionNamesOfFiles(xs: seq<string>, paths: seq<string>)
    requires FilesOf(paths, xs)
    ensures forall i :: 0 <= i < |paths| ==> GetSessionNames(paths)[i] in xs
    ensures forall x :: x in xs ==> x in GetSessionNames(paths)
    ensures forall i, j :: 0 <= i < j < |paths| ==>
      AtMost(SessionPath(GetSessionNames(paths)[i]), SessionPath(GetSessionNames(paths)[j]))
  {
    var names := GetSessionNames(paths);
    var sorted := Sort(paths);
    forall i | 0 <= i < |paths| ensures names[i] in xs && sorted[i] == SessionPath(names[i]) {
      NameOfSortedPath(xs, paths, i);
    }
    SortSorted(paths);
    SortPermutes(paths);
    forall x | x in xs ensures x in names {
      var k :| 0 <= k < |xs| && xs[k] == x;
      assert paths[k] in multiset(sorted);
      var i :| 0 <= i < |sorted| && sorted[i] == paths[k];
      SessionNameOfPath(x);
      assert names[i] == x;
    }
  }

  /**
   * The names are not sorted as names: when `y` extends `x` with a
   * character below `.` (such as `!` or a space), `x` sorts first as a
   * name, but `y`'s file sorts first as a path.
   */
  lemma ExtendedNameSortsFirst(x: string, y: string)
    requires |x| < |y| && y[..|x|] == x && y[|x|] < '.'
    ensures Below(x, y)
    ensures Below(SessionPath(y), SessionPath(x))
  {
    BelowPrefix(x, y);
    var p, q := SessionPath(x), SessionPath(y);
    var n := |SessionsDir| + |x|;
    assert q[..n] == SessionsDir + x == p[..n];
    assert q[n] == y[|x|] && p[n] == '.';
    BelowAt(q, p, n);
  }

  /** Two strings in descending order are swapped by `sorted`. */
  lemma SortTwo(p: string, q: string)
    requires Below(q, p)
    ensures Sort([p, q]) == [q, p]
  {
    BelowAsymmetric(q, p);
    BelowIrreflexive(p);
    assert [p, q][1..] == [q];
    assert [q][1..] == [];
    assert Sort([q]) == [q];
    assert Insert(p, [q]) == [q] + Insert(p, []);
  }

  /** Two strings in ascending order are kept by `sorted`. */
  lemma SortTwoOrdered(q: string, p: string)
    requires Below(q, p)
    ensures Sort([q, p]) == [q, p]
  {
    assert [q, p][1..] == [p];
    assert [p][1..] == [];
    assert Sort([p]) == [p];
  }

  /** The names of two paths that sort as `q`, `p`. */
  lemma TwoNames(paths: seq<string>, q: string, p: string)
    requires Sort(paths) == [q, p]
    ensures GetSessionNames(paths) == [SessionName(q), SessionName(p)]
  {
    var names := GetSessionNames(paths);
    assert |names| == 2 && names[0] == SessionName(q) && names[1] == SessionName(p);
  }

  /**
   * So the sessions `a` and `a!` are listed as `a!`, then `a`, whatever
   * order the file system returns them in.
   */
  lemma ExtendedNameListedFirst(x: string, y: string)
    requires GlobName(x) && GlobName(y)
    requires |x| < |y| && y[..|x|] == x && y[|x|] < '.'
    ensures GetSessionNames([SessionPath(x), SessionPath(y)]) == [y, x]
    ensures GetSessionNames([SessionPath(y), SessionPath(x)]) == [y, x]
  {
    var p, q := SessionPath(x), SessionPath(y);
    ExtendedNameSortsFirst(x, y);
    SortTwo(p, q);
    SortTwoOrdered(q, p);
    TwoNames([p, q], q, p);
    TwoNames([q, p], q, p);
    SessionNameOfPath(x);
    SessionNameOfPath(y);
  }

  /** A proper prefix sorts first. */
  lemma {:induction false} BelowPrefix(a: string, b: string)
    requires |a| < |b| && b[..|a|] == a
    ensures Below(a, b)
  {
    if a != [] {
      assert b[0] == a[0];
      assert b[1..][..|a| - 1] == a[1..];
      BelowPrefix(a[1..], b[1..]);
    }
  }

  /** Strings equal up to index `n` and smaller at `n` are ordered. */
  lemma {:induction false} BelowAt(a: string, b: string, n: nat)
    requires n < |a| && n < |b| && a[..n] == b[..n] && a[n] < b[n]
    ensures Below(a, b)
  {
    if n > 0 {
      assert a[0] == a[..n][0] && b[0] == b[..n][0];
      assert a[1..][..n - 1] == a[..n][1..] && b[1..][..n - 1] == b[..n][1..];
      BelowAt(a[1..], b[1..], n - 1);
    }
  }

  /** `Proxy.from_str(row.strip()).as_url` for each row, or `None` if one of them is rejected. */
  function ProxyUrls(rows: seq<string>, asUrl: string -> Option<string>): (r: Option<seq<string>>)
    ensures r.Some? <==> forall k :: 0 <= k < |rows| ==> asUrl(rows[k]).Some?
    ensures r.Some? ==> |r.value| == |rows| && forall k :: 0 <= k < |rows| ==> r.value[k] == asUrl(rows[k]).value
  {
    if rows == [] then Some([])
    else
      match ProxyUrls(rows[..|rows| - 1], asUrl)
      case None => None
      case Some(front) =>
        match asUrl(rows[|rows| - 1])
        case None => None
        case Some(u) => Some(front + [u])
  }

  /**
   * `get_proxies`: no proxies unless `USE_PROXY_FROM_FILE` is set; then one
   * URL per row of `bot/config/proxies.txt` (`file` is `None` when it is
   * missing). `None` means the function raised.
   */
  function GetProxies(useProxyFromFile: bool, file: Option<seq<string>>, asUrl: string -> Option<string>): (r: Option<seq<string>>)
    ensures !useProxyFromFile ==> r == Some([])
    ensures useProxyFromFile && file.None? ==> r.None?
    ensures useProxyFromFile && file.Some? ==> r == ProxyUrls(file.value, asUrl)
  {
    if !useProxyFromFile then Some([])
    else if file.None? then None
    else ProxyUrls(file.value, asUrl)
  }

  /** The working directory each client is given. */
  const ClientWorkdir: string := "sessions/"

  /** A `pyrogram.Client` as the launcher configures it. */
  datatype Client = Client(name: string, apiId: int, apiHash: string, workdir: string)

  /** What `get_tg_clients` raises. */
  datatype LaunchError = FileNotFound | ValueError

  datatype Clients = Raised(error: LaunchError) | Created(clients: seq<Client>)

  /**
   * `get_tg_clients`: no session files is an error, then a zero `API_ID` or
   * an empty `API_HASH` is one; otherwise one client per session name,
   * in order.
   */
  function GetTgClients(paths: seq<string>, apiId: int, apiHash: string): (r: Clients)
    ensures paths == [] ==> r == Raised(FileNotFound)
    ensures paths != [] && (apiId == 0 || apiHash == "") ==> r == Raised(ValueError)
    ensures r.Created? <==> paths != [] && apiId != 0 && apiHash != ""
    ensures r.Created? ==> |r.clients| == |paths|
    ensures r.Created? ==>
      forall i :: 0 <= i < |paths| ==> r.clients[i] == Client(GetSessionNames(paths)[i], apiId, apiHash, ClientWorkdir)
  {
    var names := GetSessionNames(paths);
    if names == [] then Raised(FileNotFound)
    else if apiId == 0 || apiHash == "" then Raised(ValueError)
    else Created(seq(|names|, i requires 0 <= i < |names| => Client(names[i], apiId, apiHash, ClientWorkdir)))
  }

  /** A `run_tapper` task: a client and the proxy it was handed. */
  datatype Worker = Worker(client: Client, proxy: Option<string>)

  /** The proxy `next(proxies_cycle)` hands to the `i`-th worker, or `None` without proxies. */
  function ProxyFor(proxies: seq<string>, i: nat): Option<string>
  {
    if proxies == [] then None else Some(proxies[i % |proxies|])
  }

  /**
   * `run_tasks`: reads the proxies with `get_proxies` (whose inputs it
   * takes), then pairs each client with the next proxy of an endless cycle
   * over the list, or with `None` when the list is empty. When
   * `get_proxies` raises, `run_tasks` raises before any worker starts
   * (`None`). The workers themselves are not modelled.
   */
  method RunTasks(clients: seq<Client>, useProxyFromFile: bool, proxyFile: Option<seq<string>>,
                  asUrl: string -> Option<string>)
    returns (workers: Option<seq<Worker>>)
    ensures GetProxies(useProxyFromFile, proxyFile, asUrl).None? ==> workers.None?
    ensures GetProxies(useProxyFromFile, proxyFile, asUrl).Some? ==>
      workers.Some? && |workers.value| == |clients| &&
      forall i :: 0 <= i < |clients| ==>
        workers.value[i] == Worker(clients[i], ProxyFor(GetProxies(useProxyFromFile, proxyFile, asUrl).value, i))
  {
    var read := GetProxies(useProxyFromFile, proxyFile, asUrl);
    if read.None? {
      return None;
    }
    var proxies := read.value;
    var started: seq<Worker> := [];
    var cursor := 0;  // the position of `proxies_cycle`
    var i := 0;
    while i < |clients|
      invariant 0 <= i <= |clients|
      invariant |started| == i
      invariant proxies != [] ==> cursor == i % |proxies|
      invariant forall j :: 0 <= j < i ==> started[j] == Worker(clients[j], ProxyFor(proxies, j))
    {
      var proxy: Option<string> := None;
      if proxies != [] {
        proxy := Some(proxies[cursor]);
        cursor := if cursor + 1 == |proxies| then 0 else cursor + 1;
        NextInCycle(i, |proxies|);
      }
      started := started + [Worker(clients[i], proxy)];
      i := i + 1;
    }
    workers := Some(started);
  }

  lemma {:induction false} MulAtLeast(d: int, n: int)
    requires d >= 1 && n > 0
    ensures d * n >= n
    decreases d
  {
    if d > 1 {
      MulAtLeast(d - 1, n);
      assert d * n == (d - 1) * n + n;
    }
  }

  /** Quotient and remainder are determined by any decomposition `i == q * n + r` with `0 <= r < n`. */
  lemma DivMod(i: int, n: int, q: int, r: int)
    requires n > 0 && 0 <= r < n && i == q * n + r
    ensures i / n == q && i % n == r
  {
    var q0, r0 := i / n, i % n;
    assert i == q0 * n + r0;
    assert (q - q0) * n == q * n - q0 * n;
    assert (q0 - q) * n == q0 * n - q * n;
    if q > q0 {
      MulAtLeast(q - q0, n);
    } else if q < q0 {
      MulAtLeast(q0 - q, n);
    }
  }

  /** Advancing the cycle by one moves the index to the next proxy, wrapping after the last. */
  lemma NextInCycle(i: nat, n: nat)
    requires n > 0
    ensures (i + 1) % n == if i % n + 1 == n then 0 else i % n + 1
  {
    var q, r := i / n, i % n;
    if r + 1 == n {
      DivMod(i + 1, n, q + 1, 0);
    } else {
      DivMod(i + 1, n, q, r + 1);
    }
  }

  /** How many of the first `m` workers get proxy number `k` of `n`. */
  function Served(m: nat, n: nat, k: nat): nat
    requires n > 0
  {
    if m == 0 then 0 else Served(m - 1, n, k) + (if (m - 1) % n == k then 1 else 0)
  }

  /**
   * The load is even: of `m` workers, proxy `k` of `n` serves `m / n`,
   * plus one more when `k` is among the first `m % n`.
   */
  lemma {:induction false} ServedEvenly(m: nat, n: nat, k: nat)
    requires n > 0 && k < n
    ensures Served(m, n, k) == m / n + (if k < m % n then 1 else 0)
  {
    if m > 0 {
      ServedEvenly(m - 1, n, k);
      ServedStep(m - 1, n, k);
    }
  }

  /** One more worker adds one to the load of the proxy it takes and nothing to the others. */
  lemma ServedStep(i: nat, n: nat, k: nat)
    requires n > 0 && k < n
    ensures (i + 1) / n + (if k < (i + 1) % n then 1 else 0) ==
      i / n + (if k < i % n then 1 else 0) + (if i % n == k then 1 else 0)
  {
    var q, r := i / n, i % n;
    assert i == q * n + r;
    if r + 1 == n {
      assert i + 1 == (q + 1) * n + 0;
      DivMod(i + 1, n, q + 1, 0);
    } else {
      DivMod(i + 1, n, q, r + 1);
    }
  }

  /** No two proxies' loads differ by more than one. */
  lemma ServedBalanced(m: nat, n: nat, k: nat, l: nat)
    requires n > 0 && k < n && l < n
    ensures Served(m, n, k) <= Served(m, n, l) + 1
  {
    ServedEvenly(m, n, k);
    ServedEvenly(m, n, l);
  }

  /** Three workers over two proxies: the first proxy serves the first and the third worker. */
  lemma RoundRobinExample()
    ensures ProxyFor(["P1", "P2"], 0) == Some("P1")
    ensures ProxyFor(["P1", "P2"], 1) == Some("P2")
    ensures ProxyFor(["P1", "P2"], 2) == Some("P1")
    ensures Served(3, 2, 0) == 2 && Served(3, 2, 1) == 1
  {
  }
}
