/**
  Agent setup: where the Skill and MCP files of each agent go, and the plan of
  what to change, made from the files as they are.
*/
module Setup {
  import opened Wrappers
  import opened Records

  datatype Agent =
    | Codex | ClaudeCode | Cursor | Gemini | OpenCode | VsCode | Trae | TraeCn | WorkBuddy | Dsh | Generic
  {
    function Name(): string {
      match this
      case Codex => "codex"
      case ClaudeCode => "claude-code"
      case Cursor => "cursor"
      case Gemini => "gemini"
      case OpenCode => "opencode"
      case VsCode => "vscode"
      case Trae => "trae"
      case TraeCn => "trae-cn"
      case WorkBuddy => "workbuddy"
      case Dsh => "dsh"
      case Generic => "generic"
    }

    function Directory(): string {
      match this
      case Codex => ".codex"
      case ClaudeCode => ".claude"
      case Cursor => ".cursor"
      case Gemini => ".gemini"
      case OpenCode => ".config/opencode"
      case VsCode => ".vscode"
      case Trae => ".trae"
      case TraeCn => ".trae-cn"
      case WorkBuddy => ".workbuddy"
      case Dsh => ".dsh"
      case Generic => ".agents"
    }

    predicate NeedsImport() {
      VsCode? || Trae? || TraeCn? || WorkBuddy? || Dsh? || Generic?
    }

    function Kinds(): seq<Kind> {
      if WorkBuddy? then [Skill, Mcp, Instructions, Metadata, Icon]
      else if NeedsImport() then [Skill, Mcp, Instructions]
      else [Skill, Mcp]
    }
  }

  datatype Kind = Skill | Mcp | Instructions | Metadata | Icon

  datatype Scope = Global | Project

  datatype Locations = Locations(home: string, root: string, scope: Scope, codexHome: string) {
    /** Where the file of a kind goes for an agent.  Several agents share one Skill file. */
    function Path(agent: Agent, kind: Kind): string {
      var bundle := root + "/.mirrorproxy/agents/" + agent.Name();
      match kind
      case Instructions => bundle + "/README.md"
      case Metadata => bundle + "/connector-meta.json"
      case Icon => bundle + "/icon.svg"
      case Skill =>
        if agent.WorkBuddy? then bundle + "/skills/mirrorproxy/SKILL.md"
        else
          var directory :=
            if agent.Codex? || agent.Generic? || agent.VsCode? then ".agents"
            else if agent.TraeCn? && scope.Project? then ".trae"
            else if agent.OpenCode? && scope.Project? then ".opencode"
            else agent.Directory();
          root + "/" + directory + "/skills/mirrorproxy/SKILL.md"
      case Mcp =>
        match agent
        case Codex => if scope.Global? then codexHome + "/config.toml" else root + "/.codex/config.toml"
        case ClaudeCode => if scope.Global? then home + "/.claude.json" else root + "/.mcp.json"
        case Cursor => root + "/.cursor/mcp.json"
        case Gemini => root + "/.gemini/settings.json"
        case OpenCode => if scope.Global? then home + "/.config/opencode/opencode.json" else root + "/opencode.json"
        case Dsh => bundle + "/mirrorproxy.cordis.yml"
        case _ => bundle + "/mcp.json"
    }

    function Locator(): (Agent, Kind) -> string {
      (agent, kind) => Path(agent, kind)
    }
  }

  /** Where the instructions of an agent go, relative to the root. */
  lemma SkillPathsAre(l: Locations)
    ensures l.Path(WorkBuddy, Skill) ==
            l.root + "/.mirrorproxy/agents/" + "workbuddy" + "/skills/mirrorproxy/SKILL.md"
    ensures forall a :: a != WorkBuddy ==>
              l.Path(a, Skill) ==
              l.root + "/" +
              (match a
               case Codex => ".agents"
               case Generic => ".agents"
               case VsCode => ".agents"
               case ClaudeCode => ".claude"
               case Cursor => ".cursor"
               case Gemini => ".gemini"
               case OpenCode => if l.scope == Project then ".opencode" else ".config/opencode"
               case Trae => ".trae"
               case TraeCn => if l.scope == Project then ".trae" else ".trae-cn"
               case Dsh => ".dsh"
               case WorkBuddy => "") +
              "/skills/mirrorproxy/SKILL.md"
  {
  }

  /** And where its MCP configuration goes: into its own file where it has one, and else into the bundle of the rest. */
  lemma McpPathsAre(l: Locations)
    ensures l.Path(Codex, Mcp) ==
            if l.scope == Global then l.codexHome + "/config.toml" else l.root + "/.codex/config.toml"
    ensures l.Path(ClaudeCode, Mcp) == if l.scope == Global then l.home + "/.claude.json" else l.root + "/.mcp.json"
    ensures l.Path(Cursor, Mcp) == l.root + "/.cursor/mcp.json"
    ensures l.Path(Gemini, Mcp) == l.root + "/.gemini/settings.json"
    ensures l.Path(OpenCode, Mcp) ==
            if l.scope == Global then l.home + "/.config/opencode/opencode.json" else l.root + "/opencode.json"
    ensures l.Path(Dsh, Mcp) == l.root + "/.mirrorproxy/agents/" + "dsh" + "/mirrorproxy.cordis.yml"
    ensures forall a :: a in {VsCode, Trae, TraeCn, WorkBuddy, Generic} ==>
              l.Path(a, Mcp) == l.root + "/.mirrorproxy/agents/" + a.Name() + "/mcp.json"
    ensures forall a ::
              && l.Path(a, Instructions) == l.root + "/.mirrorproxy/agents/" + a.Name() + "/README.md"
              && l.Path(a, Metadata) == l.root + "/.mirrorproxy/agents/" + a.Name() + "/connector-meta.json"
              && l.Path(a, Icon) == l.root + "/.mirrorproxy/agents/" + a.Name() + "/icon.svg"
  {
  }

  /** Any assignment of files to targets; `Locations.Locator` is the real one. */
  type Locator = (Agent, Kind) -> string

  datatype Change = Change(agent: Agent, kind: Kind, before: Option<string>, installed: string)

  datatype Record = Record(scope: Scope, root: string, changes: seq<Change>)

  datatype Target = Target(agent: Agent, kind: Kind)

  function PathOf(locate: Locator, change: Change): string {
    locate(change.agent, change.kind)
  }

  ghost predicate DistinctTargets(locate: Locator, changes: seq<Change>) {
    forall i, j :: 0 <= i < j < |changes| ==> PathOf(locate, changes[i]) != PathOf(locate, changes[j])
  }

  /** The file still holds one of the two contents the setup knows. */
  predicate Identified(locate: Locator, change: Change, files: map<string, string>) {
    var current := Get(files, PathOf(locate, change));
    current == change.before || current == Some(change.installed)
  }

  ghost predicate AllBefore(locate: Locator, changes: seq<Change>, files: map<string, string>) {
    forall i :: 0 <= i < |changes| ==> Get(files, PathOf(locate, changes[i])) == changes[i].before
  }

  function InstallSteps(locate: Locator, changes: seq<Change>): seq<Step> {
    seq(|changes|, i requires 0 <= i < |changes| => Step(PathOf(locate, changes[i]), Some(changes[i].installed)))
  }

  function RestoreSteps(locate: Locator, changes: seq<Change>): seq<Step> {
    seq(|changes|, i requires 0 <= i < |changes| => Step(PathOf(locate, changes[i]), changes[i].before))
  }

  // -------------------------------------------------------------------------
  // Planning
  // -------------------------------------------------------------------------

  /** The new content of a target and whether it conflicts with the old one; `None` is an error. */
  type Renderer = (Agent, Kind, Option<string>) -> Option<(string, bool)>

  datatype Draft = Draft(changes: seq<Change>, conflicts: seq<string>, claimed: set<string>)

  /** One visit of the planner: the first target to claim a path decides its content. */
  function Visit(locate: Locator, files: map<string, string>, shadowed: bool, render: Renderer, draft: Draft,
                 target: Target)
    : Option<Draft>
  {
    var path := locate(target.agent, target.kind);
    if path in draft.claimed then Some(draft)
    else if target == Target(OpenCode, Mcp) && shadowed then None
    else
      var before := Get(files, path);
      match render(target.agent, target.kind, before)
      case None => None
      case Some((installed, conflict)) =>
        Some(Draft(
               if before == Some(installed) then draft.changes
               else draft.changes + [Change(target.agent, target.kind, before, installed)],
               if conflict then draft.conflicts + [path] else draft.conflicts,
               draft.claimed + {path}))
  }

  function VisitKinds(locate: Locator, files: map<string, string>, shadowed: bool, render: Renderer,
                      start: Option<Draft>, agent: Agent, kinds: seq<Kind>): Option<Draft>
  {
    if kinds == [] then start
    else
      var n := |kinds| - 1;
      match VisitKinds(locate, files, shadowed, render, start, agent, kinds[..n])
      case None => None
      case Some(draft) => Visit(locate, files, shadowed, render, draft, Target(agent, kinds[n]))
  }

  function VisitAgents(locate: Locator, files: map<string, string>, shadowed: bool, render: Renderer,
                       agents: seq<Agent>)
    : Option<Draft>
  {
    if agents == [] then Some(Draft([], [], {}))
    else
      var n := |agents| - 1;
      VisitKinds(locate, files, shadowed, render,
                 VisitAgents(locate, files, shadowed, render, agents[..n]), agents[n], agents[n].Kinds())
  }

  /** `shadowed` says that an OpenCode JSONC file exists; `agents` is the chosen set in its fixed order. */
  method Plan(locate: Locator, files: map<string, string>, shadowed: bool, render: Renderer, agents: seq<Agent>)
    returns (result: Option<(seq<Change>, seq<string>)>)
    ensures match VisitAgents(locate, files, shadowed, render, agents)
            case None => result == None
            case Some(draft) => result == Some((draft.changes, draft.conflicts))
  {
    var draft := Draft([], [], {});
    for a := 0 to |agents|
      invariant VisitAgents(locate, files, shadowed, render, agents[..a]) == Some(draft)
    {
      assert agents[..a + 1][..a] == agents[..a];
      var next := PlanAgent(locate, files, shadowed, render, agents[a], draft);
      if next == None {
        AgentFailureIsFinal(locate, files, shadowed, render, agents, a + 1);
        return None;
      }
      draft := next.value;
    }
    assert agents[..|agents|] == agents;
    return Some((draft.changes, draft.conflicts));
  }

  /** The inner loop of the planner, over the kinds of one agent. */
  method PlanAgent(locate: Locator, files: map<string, string>, shadowed: bool, render: Renderer, agent: Agent,
                   start: Draft)
    returns (result: Option<Draft>)
    ensures result == VisitKinds(locate, files, shadowed, render, Some(start), agent, agent.Kinds())
  {
    var kinds := agent.Kinds();
    var Draft(changes, conflicts, paths) := start;
    for k := 0 to |kinds|
      invariant VisitKinds(locate, files, shadowed, render, Some(start), agent, kinds[..k]) ==
                Some(Draft(changes, conflicts, paths))
    {
      assert kinds[..k + 1][..k] == kinds[..k];
      ghost var next := VisitKinds(locate, files, shadowed, render, Some(start), agent, kinds[..k + 1]);
      assert next == Visit(locate, files, shadowed, render, Draft(changes, conflicts, paths), Target(agent, kinds[k]));
      if next == None {
        KindFailureIsFinal(locate, files, shadowed, render, Some(start), agent, kinds, k + 1);
      }
      var path := locate(agent, kinds[k]);
      if path in paths {
        continue;
      }
      if agent == OpenCode && kinds[k] == Mcp && shadowed {
        return None;
      }
      var before := Get(files, path);
      var rendered := render(agent, kinds[k], before);
      if rendered == None {
        return None;
      }
      paths := paths + {path};
      var (installed, conflict) := rendered.value;
      if conflict {
        conflicts := conflicts + [path];
      }
      if before != Some(installed) {
        changes := changes + [Change(agent, kinds[k], before, installed)];
      }
    }
    assert kinds[..|kinds|] == kinds;
    return Some(Draft(changes, conflicts, paths));
  }

  lemma {:induction false} KindFailureIsFinal(locate: Locator, files: map<string, string>, shadowed: bool,
                                              render: Renderer,
                                              start: Option<Draft>, agent: Agent, kinds: seq<Kind>, k: nat)
    requires k <= |kinds| && VisitKinds(locate, files, shadowed, render, start, agent, kinds[..k]) == None
    ensures VisitKinds(locate, files, shadowed, render, start, agent, kinds) == None
    decreases |kinds|
  {
    if k == |kinds| {
      assert kinds[..k] == kinds;
    } else {
      var n := |kinds| - 1;
      assert kinds[..n][..k] == kinds[..k];
      KindFailureIsFinal(locate, files, shadowed, render, start, agent, kinds[..n], k);
    }
  }

  lemma {:induction false} NothingFromFailure(locate: Locator, files: map<string, string>, shadowed: bool,
                                              render: Renderer, agent: Agent, kinds: seq<Kind>)
    ensures VisitKinds(locate, files, shadowed, render, None, agent, kinds) == None
  {
    hide Visit;
    if kinds != [] {
      NothingFromFailure(locate, files, shadowed, render, agent, kinds[..|kinds| - 1]);
    }
  }

  lemma {:induction false} AgentFailureIsFinal(locate: Locator, files: map<string, string>, shadowed: bool,
                                               render: Renderer, agents: seq<Agent>, a: nat)
    requires a <= |agents| && VisitAgents(locate, files, shadowed, render, agents[..a]) == None
    ensures VisitAgents(locate, files, shadowed, render, agents) == None
    decreases |agents|
  {
    hide VisitKinds;
    if a == |agents| {
      assert agents[..a] == agents;
    } else {
      var n := |agents| - 1;
      assert agents[..n][..a] == agents[..a];
      AgentFailureIsFinal(locate, files, shadowed, render, agents[..n], a);
      NothingFromFailure(locate, files, shadowed, render, agents[n], agents[n].Kinds());
    }
  }

  /** What a draft promises: each file once, with the content it has now, and only real changes. */
  ghost predicate SoundDraft(locate: Locator, files: map<string, string>, draft: Draft) {
    && DistinctTargets(locate, draft.changes)
    && AllBefore(locate, draft.changes, files)
    && forall i :: 0 <= i < |draft.changes| ==>
         && draft.changes[i].before != Some(draft.changes[i].installed)
         && PathOf(locate, draft.changes[i]) in draft.claimed
  }

  lemma VisitIsSound(locate: Locator, files: map<string, string>, shadowed: bool, render: Renderer, draft: Draft,
                     target: Target)
    requires SoundDraft(locate, files, draft) && Visit(locate, files, shadowed, render, draft, target).Some?
    ensures var next := Visit(locate, files, shadowed, render, draft, target).value;
            && SoundDraft(locate, files, next)
            && next.claimed == draft.claimed + {locate(target.agent, target.kind)}
  {
    var next := Visit(locate, files, shadowed, render, draft, target).value;
    if next != draft {
      assert next.changes[..|draft.changes|] == draft.changes;
    }
  }

  lemma {:induction false} VisitKindsIsSound(locate: Locator, files: map<string, string>, shadowed: bool,
                                             render: Renderer, start: Draft, agent: Agent, kinds: seq<Kind>)
    requires SoundDraft(locate, files, start)
    requires VisitKinds(locate, files, shadowed, render, Some(start), agent, kinds).Some?
    ensures var draft := VisitKinds(locate, files, shadowed, render, Some(start), agent, kinds).value;
            && SoundDraft(locate, files, draft)
            && start.claimed <= draft.claimed
            && forall k :: k in kinds ==> locate(agent, k) in draft.claimed
  {
    if kinds != [] {
      var n := |kinds| - 1;
      VisitKindsIsSound(locate, files, shadowed, render, start, agent, kinds[..n]);
      var was := VisitKinds(locate, files, shadowed, render, Some(start), agent, kinds[..n]).value;
      VisitIsSound(locate, files, shadowed, render, was, Target(agent, kinds[n]));
      assert kinds == kinds[..n] + [kinds[n]];
    }
  }

  /**
    Although `Path` sends different targets to one file, the plan names every file at most once, with
    the content it has now; and the path of every chosen target is claimed.
  */
  lemma {:induction false} PlanIsSound(locate: Locator, files: map<string, string>, shadowed: bool, render: Renderer,
                                       agents: seq<Agent>)
    requires VisitAgents(locate, files, shadowed, render, agents).Some?
    ensures var draft := VisitAgents(locate, files, shadowed, render, agents).value;
            && SoundDraft(locate, files, draft)
            && forall a, k :: a in agents && k in a.Kinds() ==> locate(a, k) in draft.claimed
  {
    if agents != [] {
      var n := |agents| - 1;
      if VisitAgents(locate, files, shadowed, render, agents[..n]) == None {
        AgentFailureIsFinal(locate, files, shadowed, render, agents, n);
      }
      PlanIsSound(locate, files, shadowed, render, agents[..n]);
      var was := VisitAgents(locate, files, shadowed, render, agents[..n]).value;
      VisitKindsIsSound(locate, files, shadowed, render, was, agents[n], agents[n].Kinds());
      assert agents == agents[..n] + [agents[n]];
    }
  }

  /** Codex, VS Code and the generic agent share one Skill file. */
  lemma PathIsNotInjective(locations: Locations)
    ensures locations.Path(Codex, Skill) == locations.Path(Generic, Skill) == locations.Path(VsCode, Skill)
    ensures locations.scope.Project? ==> locations.Path(Trae, Skill) == locations.Path(TraeCn, Skill)
  {
  }
}
