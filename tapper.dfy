/**
 * The state a `Tapper` keeps and updates in place: the list of stored
 * user agents (`session_ug_dict`, loaded from `user_agents.json` and
 * appended to when the session has none), the `User-Agent` header it picks,
 * and the `start_param` taken from the last init data.
 *
 * Writing `user_agents.json` back, generating a user agent and the
 * messaging-platform handshake are outside the model: the generated agent
 * and the handshake's outcome are parameters.
 */
module Tapper {
  import opened Wrappers
  import opened InitData

  /** One entry of `user_agents.json`. */
  datatype AgentEntry = AgentEntry(sessionName: string, userAgent: string)

  /** What reading `user_agents.json` found. */
  datatype AgentsFile =
    | Missing                           // FileNotFoundError
    | Corrupt                           // json.JSONDecodeError
    | NotAList                          // valid JSON that is not a list
    | Entries(entries: seq<AgentEntry>)

  /** `load_user_agents`: the stored list, and `[]` in every other case. */
  function LoadUserAgents(f: AgentsFile): (r: seq<AgentEntry>)
    ensures f.Entries? ==> r == f.entries
    ensures !f.Entries? ==> r == []
  {
    if f.Entries? then f.entries else []
  }

  /** Some entry of the list belongs to session `name`. */
  predicate Registered(entries: seq<AgentEntry>, name: string)
  {
    exists i :: 0 <= i < |entries| && entries[i].sessionName == name
  }

  /** No two entries belong to the same session. */
  predicate UniqueSessions(entries: seq<AgentEntry>)
  {
    forall i, j :: 0 <= i < j < |entries| ==> entries[i].sessionName != entries[j].sessionName
  }

  /**
   * The `next(...)` of `check_user_agent`: the user agent of the first
   * entry for session `name`, or `None`.
   */
  function FindAgent(entries: seq<AgentEntry>, name: string): (r: Option<string>)
    ensures r.None? <==> !Registered(entries, name)
    ensures r.Some? ==> exists i :: (0 <= i < |entries| && entries[i] == AgentEntry(name, r.value) &&
      forall j :: 0 <= j < i ==> entries[j].sessionName != name)
  {
    if entries == [] then None
    else if entries[0].sessionName == name then Some(entries[0].userAgent)
    else
      var r := FindAgent(entries[1..], name);
      if r.Some? then
        var i :| 0 <= i < |entries[1..]| && entries[1..][i] == AgentEntry(name, r.value) &&
          forall j :: 0 <= j < i ==> entries[1..][j].sessionName != name;
        assert entries[i + 1] == AgentEntry(name, r.value);
        assert forall j :: 1 <= j < i + 1 ==> entries[j] == entries[1..][j - 1];
        r
      else
        assert forall j :: 1 <= j < |entries| ==> entries[j] == entries[1..][j - 1];
        r
  }

  /** Appending the entry of an unregistered session keeps the sessions unique. */
  lemma AppendKeepsUnique(entries: seq<AgentEntry>, name: string, agent: string)
    requires UniqueSessions(entries) && !Registered(entries, name)
    ensures UniqueSessions(entries + [AgentEntry(name, agent)])
  {
  }

  /** Appending an entry never changes what an already registered session finds. */
  lemma AppendKeepsFound(entries: seq<AgentEntry>, name: string, e: AgentEntry)
    requires Registered(entries, name)
    ensures FindAgent(entries + [e], name) == FindAgent(entries, name)
  {
    var r := FindAgent(entries, name);
    var i :| 0 <= i < |entries| && entries[i] == AgentEntry(name, r.value) &&
      forall j :: 0 <= j < i ==> entries[j].sessionName != name;
    var grown := entries + [e];
    assert grown[i] == entries[i];
    var r' := FindAgent(grown, name);
    var i' :| 0 <= i' < |grown| && grown[i'] == AgentEntry(name, r'.value) &&
      forall j :: 0 <= j < i' ==> grown[j].sessionName != name;
    assert forall j :: 0 <= j < |entries| ==> grown[j] == entries[j];
  }

  /** In a list with unique sessions, the agent found is the one stored for the session. */
  lemma FindAgentUnique(entries: seq<AgentEntry>, name: string, agent: string)
    requires UniqueSessions(entries)
    ensures FindAgent(entries, name) == Some(agent) <==> AgentEntry(name, agent) in entries
  {
    if AgentEntry(name, agent) in entries {
      var k :| 0 <= k < |entries| && entries[k] == AgentEntry(name, agent);
      var r := FindAgent(entries, name);
      var i :| 0 <= i < |entries| && entries[i] == AgentEntry(name, r.value) &&
        forall j :: 0 <= j < i ==> entries[j].sessionName != name;
      assert i == k;
    }
  }

  /** How the platform handshake of `get_tg_web_data` ended. */
  datatype Handshake =
    | Unauthorized          // connect raised Unauthorized, UserDeactivated or AuthKeyUnregistered
    | Failed                // any other error while connecting, resolving the bot or opening the web view
    | WebView(url: string)  // the web view's URL
    | DisconnectFailed(url: string)
                            // the web view's URL was read, then disconnecting raised

  class Tapper {
    const sessionName: string
    var startParam: string
    var sessionUgDict: seq<AgentEntry>
    /** The `User-Agent` header chosen for this session. */
    var userAgent: string

    /**
     * `Tapper.__init__`: loads the stored agents and picks this session's
     * agent with `check_user_agent` (`generated` is what
     * `generate_random_user_agent` would return).
     */
    constructor (name: string, stored: AgentsFile, generated: string)
      ensures sessionName == name && startParam == ""
      ensures FindAgent(LoadUserAgents(stored), name).Some? ==>
        sessionUgDict == LoadUserAgents(stored) && userAgent == FindAgent(LoadUserAgents(stored), name).value
      ensures FindAgent(LoadUserAgents(stored), name).None? ==>
        sessionUgDict == LoadUserAgents(stored) + [AgentEntry(name, generated)] && userAgent == generated
    {
      sessionName := name;
      startParam := "";
      sessionUgDict := LoadUserAgents(stored);
      userAgent := "";
      new;
      userAgent := CheckUserAgent(generated);
    }

    /**
     * `save_user_agent`: appends an entry for this session, unless one
     * exists; returns the agent it stored, or Python's `None`.
     */
    method SaveUserAgent(generated: string) returns (saved: Option<string>)
      modifies this`sessionUgDict
      ensures Registered(old(sessionUgDict), sessionName) ==>
        sessionUgDict == old(sessionUgDict) && saved.None?
      ensures !Registered(old(sessionUgDict), sessionName) ==>
        sessionUgDict == old(sessionUgDict) + [AgentEntry(sessionName, generated)] && saved == Some(generated)
      ensures UniqueSessions(old(sessionUgDict)) ==> UniqueSessions(sessionUgDict)
      ensures FindAgent(sessionUgDict, sessionName).Some?
    {
      if FindAgent(sessionUgDict, sessionName).None? {
        if UniqueSessions(sessionUgDict) {
          AppendKeepsUnique(sessionUgDict, sessionName, generated);
        }
        sessionUgDict := sessionUgDict + [AgentEntry(sessionName, generated)];
        assert sessionUgDict[|sessionUgDict| - 1].sessionName == sessionName;
        saved := Some(generated);
      } else {
        saved := None;
      }
    }

    /**
     * `check_user_agent`: the stored agent of this session if there is one;
     * otherwise the freshly saved one. Afterwards the session is found
     * with the returned agent, and a registry without duplicate sessions
     * stays without.
     */
    method CheckUserAgent(generated: string) returns (agent: string)
      modifies this`sessionUgDict
      ensures old(FindAgent(sessionUgDict, sessionName)).Some? ==>
        agent == old(FindAgent(sessionUgDict, sessionName)).value && sessionUgDict == old(sessionUgDict)
      ensures old(FindAgent(sessionUgDict, sessionName)).None? ==>
        agent == generated && sessionUgDict == old(sessionUgDict) + [AgentEntry(sessionName, generated)]
      ensures FindAgent(sessionUgDict, sessionName) == Some(agent)
      ensures UniqueSessions(old(sessionUgDict)) ==> UniqueSessions(sessionUgDict)
    {
      var load := FindAgent(sessionUgDict, sessionName);
      if load.None? {
        var saved := SaveUserAgent(generated);
        agent := saved.value;
        GrownFindsNew(old(sessionUgDict), sessionName, generated);
      } else {
        agent := load.value;
      }
    }

    /**
     * `get_tg_web_data` after the handshake: a revoked session is fatal,
     * any other failure yields no data, and a web view yields the rebuilt
     * init data and records its `start_param`. The start parameter is
     * stored before the client disconnects, so a failed disconnect yields
     * no data but leaves the new start parameter in place.
     */
    method GetTgWebData(handshake: Handshake, unquote: string -> string, quote: string -> string)
      returns (w: WebData)
      modifies this`startParam
      ensures handshake.Unauthorized? ==> w == Revoked && startParam == old(startParam)
      ensures handshake.Failed? ==> w == NoData && startParam == old(startParam)
      ensures handshake.WebView? && RebuildInitData(handshake.url, unquote, quote).None? ==>
        w == NoData && startParam == old(startParam)
      ensures handshake.WebView? && RebuildInitData(handshake.url, unquote, quote).Some? ==>
        w == Data(RebuildInitData(handshake.url, unquote, quote).value.initData) &&
        startParam == RebuildInitData(handshake.url, unquote, quote).value.startParam
      ensures handshake.DisconnectFailed? && RebuildInitData(handshake.url, unquote, quote).None? ==>
        w == NoData && startParam == old(startParam)
      ensures handshake.DisconnectFailed? && RebuildInitData(handshake.url, unquote, quote).Some? ==>
        w == NoData && startParam == RebuildInitData(handshake.url, unquote, quote).value.startParam
    {
      match handshake {
        case Unauthorized => w := Revoked;
        case Failed => w := NoData;
        case WebView(url) =>
          match RebuildInitData(url, unquote, quote) {
            case None => w := NoData;
            case Some(r) =>
              startParam := r.startParam;
              w := Data(r.initData);
          }
        case DisconnectFailed(url) =>
          match RebuildInitData(url, unquote, quote) {
            case None => w := NoData;
            case Some(r) =>
              startParam := r.startParam;
              w := NoData;
          }
      }
    }
  }

  /** A session appended to a list that lacked it is then found with the agent appended. */
  lemma GrownFindsNew(entries: seq<AgentEntry>, name: string, agent: string)
    requires !Registered(entries, name)
    ensures FindAgent(entries + [AgentEntry(name, agent)], name) == Some(agent)
  {
    var grown := entries + [AgentEntry(name, agent)];
    assert grown[|entries|].sessionName == name;
    var r := FindAgent(grown, name);
    var i :| 0 <= i < |grown| && grown[i] == AgentEntry(name, r.value) &&
      forall j :: 0 <= j < i ==> grown[j].sessionName != name;
    assert forall j :: 0 <= j < |entries| ==> grown[j] == entries[j];
  }
}
