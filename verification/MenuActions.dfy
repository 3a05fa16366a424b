/**
 The menus teach the key table: next to each entry stands the key that does the same after the prefix. Three
 tables must agree for that: the entries, what running an entry does, and what the keys do.
 */
module MenuActions {
  import opened Bytes
  import opened KeyBindings

  /** The actions of menu entries that mirror a key. */
  datatype MenuAction =
    | FocusLeft | FocusDown | FocusUp | FocusRight | ResizeLeft | ResizeDown | ResizeUp | ResizeRight
    | PreviousPane | FileSidebar | SelectTab(index: nat) | SplitRight | SplitDown | Zoom | ZoomOut | Scrollback
    | ClosePane | NewTab | RenameTab | CloseTab | NextTab | PrevTab | MoveTabLeft | MoveTabRight
    | Timeline | NewTask | ObservatoryRail | TaskList | ManageAgents | SwitchWorkspace | RenameWorkspace
    | KillSession | ManageProjects | AddProject | EditSettings | ProjectSidebar | Leave

  /** The key that stands next to an entry, as the menus and the action picker list them. */
  function KeyOf(action: MenuAction): Option<Byte> {
    match action
    case SplitRight => Some('%' as int)
    case SplitDown => Some('"' as int)
    case Zoom => Some('z' as int)
    case ZoomOut => Some('w' as int)
    case Scrollback => Some('[' as int)
    case ClosePane => Some('x' as int)
    case NewTab => Some('c' as int)
    case RenameTab => Some(',' as int)
    case CloseTab => Some('&' as int)
    case NextTab => Some('n' as int)
    case PrevTab => Some('p' as int)
    case MoveTabLeft => Some('<' as int)
    case MoveTabRight => Some('>' as int)
    case NewTask => Some('N' as int)
    case TaskList => Some('t' as int)
    case ManageAgents => Some('a' as int)
    case Timeline => Some('D' as int)
    case AddProject => Some('A' as int)
    case ManageProjects => Some('P' as int)
    case RenameWorkspace => Some('$' as int)
    case SwitchWorkspace => Some('s' as int)
    case ProjectSidebar => Some('b' as int)
    case ObservatoryRail => Some('o' as int)
    case EditSettings => Some('g' as int)
    case Leave => Some('d' as int)
    case KillSession => Some('Q' as int)
    case FocusLeft => Some('h' as int)
    case FocusDown => Some('j' as int)
    case FocusUp => Some('k' as int)
    case FocusRight => Some('l' as int)
    case ResizeLeft => Some('H' as int)
    case ResizeDown => Some('J' as int)
    case ResizeUp => Some('K' as int)
    case ResizeRight => Some('L' as int)
    case PreviousPane => Some(';' as int)
    case FileSidebar => Some('f' as int)
    case SelectTab(index) =>
      if index < 9 then Some('1' as int + index) else if index == 9 then Some('0' as int) else None
  }

  datatype Request = ObservatoryCommand | TasksFrame | AgentsFrame | SettingsFrame | WorkspaceStateFrame | KillServer

  datatype Surface = TaskInput | TabName | WorkspaceName | Switcher | ProjectInput | CommandMenu

  /** What the client does in the end: a command, a question about one, another request, a surface, or leaving. */
  datatype Deed =
    | Commands(command: Command) | Asks(command: Command) | Requests(request: Request) | Opens(surface: Surface)
    | Detaches | Types(bytes: seq<Byte>) | Nothing

  /** What the loop does with an action of the key table. */
  function ByKey(effect: Effect): Deed {
    match effect
    case Ignore => Nothing
    case Send(command) => Commands(command)
    case Type(bytes) => Types(bytes)
    case Act(action) =>
      match action
      case Detach => Detaches
      case ToggleOverlay => Opens(TaskInput)
      case Observatory => Requests(ObservatoryCommand)
      case Tasks => Requests(TasksFrame)
      case Agents => Requests(AgentsFrame)
      case Rename => Opens(TabName)
      case RenameSession => Opens(WorkspaceName)
      case Menu => Opens(CommandMenu)
      case Sessions => Opens(Switcher)
      case Settings => Requests(SettingsFrame)
      case Projects => Requests(WorkspaceStateFrame)
      case NewProject => Opens(ProjectInput)
      case CloseWorkspace => Requests(KillServer)
      case Confirm(command) => Asks(command)
  }

  /** What running a menu entry does. */
  function ByMenu(action: MenuAction, confirmClose: bool, confirmTabClose: bool): Deed {
    match action
    case FocusLeft => Commands(Focus(Left))
    case FocusDown => Commands(Focus(Down))
    case FocusUp => Commands(Focus(Up))
    case FocusRight => Commands(Focus(Right))
    case ResizeLeft => Commands(ResizePane(Left))
    case ResizeDown => Commands(ResizePane(Down))
    case ResizeUp => Commands(ResizePane(Up))
    case ResizeRight => Commands(ResizePane(Right))
    case PreviousPane => Commands(LastPane)
    case FileSidebar => Commands(FileSidebarToggle)
    case SelectTab(index) => Commands(SelectWindow(index))
    case SplitRight => Commands(Split(LeftRight))
    case SplitDown => Commands(Split(TopBottom))
    case Zoom => Commands(ZoomToggle)
    case ZoomOut => Commands(Overview)
    case Scrollback => Commands(CopyMode)
    case ClosePane => if confirmClose then Asks(KillPane) else Commands(KillPane)
    case NewTab => Commands(NewWindow)
    case RenameTab => Opens(TabName)
    case CloseTab => if confirmTabClose then Asks(KillWindow) else Commands(KillWindow)
    case NextTab => Commands(NextWindow)
    case PrevTab => Commands(PrevWindow)
    case MoveTabLeft => Commands(MoveTab(Previous))
    case MoveTabRight => Commands(MoveTab(Next))
    case Timeline => Commands(Today)
    case NewTask => Opens(TaskInput)
    case ObservatoryRail => Requests(ObservatoryCommand)
    case TaskList => Requests(TasksFrame)
    case ManageAgents => Requests(AgentsFrame)
    case SwitchWorkspace => Opens(Switcher)
    case RenameWorkspace => Opens(WorkspaceName)
    case KillSession => Requests(KillServer)
    case ManageProjects => Requests(WorkspaceStateFrame)
    case AddProject => Opens(ProjectInput)
    case EditSettings => Requests(SettingsFrame)
    case ProjectSidebar => Commands(SidebarToggle)
    case Leave => Detaches
  }

  /** The key the picker shows for an entry: none if the configuration binds it to something. */
  function ShownKey(action: MenuAction, bindings: seq<Binding>): Option<Byte> {
    var key := KeyOf(action);
    if key.Some? && exists i :: 0 <= i < |bindings| && bindings[i].key == key.value then None else key
  }

  lemma {:induction false} UnboundHasNoEffect(key: Byte, bindings: seq<Binding>)
    requires forall i :: 0 <= i < |bindings| ==> bindings[i].key != key
    ensures FindBinding(key, bindings) == None
  {
    if bindings != [] {
      UnboundHasNoEffect(key, bindings[1..]);
    }
  }

  lemma LettersAgree(cfg: Config, action: MenuAction)
    requires KeyOf(action).Some? && KeyOf(action).value >= 'a' as int
    ensures ByKey(Builtin(cfg, KeyOf(action).value)) == ByMenu(action, cfg.confirmClose, cfg.confirmTabClose)
  {
  }

  lemma CapitalsAgree(cfg: Config, action: MenuAction)
    requires KeyOf(action).Some? && 'A' as int <= KeyOf(action).value < 'a' as int
    ensures ByKey(Builtin(cfg, KeyOf(action).value)) == ByMenu(action, cfg.confirmClose, cfg.confirmTabClose)
  {
  }

  lemma SignsAgree(cfg: Config, action: MenuAction)
    requires KeyOf(action).Some? && KeyOf(action).value < 'A' as int
    ensures ByKey(Builtin(cfg, KeyOf(action).value)) == ByMenu(action, cfg.confirmClose, cfg.confirmTabClose)
  {
  }

  /** The built-in keys do what the entries that show them do. */
  lemma BuiltinsAgree(cfg: Config, action: MenuAction)
    requires KeyOf(action).Some?
    ensures ByKey(Builtin(cfg, KeyOf(action).value)) == ByMenu(action, cfg.confirmClose, cfg.confirmTabClose)
  {
    var key := KeyOf(action).value;
    if key >= 'a' as int {
      LettersAgree(cfg, action);
    } else if key >= 'A' as int {
      CapitalsAgree(cfg, action);
    } else {
      SignsAgree(cfg, action);
    }
  }

  /** Under every configuration, a key that the picker shows does what its entry does. */
  lemma PickerTeachesKeys(cfg: Config, action: MenuAction)
    requires ShownKey(action, cfg.bindings).Some?
    ensures ByKey(Resolve(cfg, ShownKey(action, cfg.bindings).value)) ==
            ByMenu(action, cfg.confirmClose, cfg.confirmTabClose)
  {
    UnboundHasNoEffect(KeyOf(action).value, cfg.bindings);
    BuiltinsAgree(cfg, action);
  }

  /** No key is shown for two entries. */
  lemma KeysAreUnique(a: MenuAction, b: MenuAction)
    requires KeyOf(a).Some? && KeyOf(a) == KeyOf(b)
    ensures a == b
  {
  }

  // ----- Keys that the configuration binds

  /** The first binding of a key names this action. */
  ghost predicate BoundTo(bindings: seq<Binding>, key: Byte, name: string) {
    exists i :: BoundAt(bindings, key, name, i)
  }

  ghost predicate BoundAt(bindings: seq<Binding>, key: Byte, name: string, i: nat) {
    i < |bindings| && bindings[i] == Binding(key, name) && forall k :: 0 <= k < i ==> bindings[k].key != key
  }

  lemma {:induction false} FindsFirst(bindings: seq<Binding>, key: Byte, name: string, i: nat)
    requires BoundAt(bindings, key, name, i)
    ensures FindBinding(key, bindings) == Some(name)
  {
    if i > 0 {
      assert bindings[0].key != key;
      assert forall k :: 0 <= k < i - 1 ==> bindings[1..][k] == bindings[k + 1];
      FindsFirst(bindings[1..], key, name, i - 1);
    }
  }

  /** What a name makes of a key, whatever the key. */
  function Named(name: string, cfg: Config): Option<Effect> {
    if name == "none" then Some(Ignore)
    else if ClientAction(name).Some? then Some(Act(ClientAction(name).value))
    else if ServerCommand(name).Some? then Some(Issue(ServerCommand(name).value, cfg))
    else None
  }

  lemma BoundIsNamed(cfg: Config, key: Byte, name: string)
    requires BoundTo(cfg.bindings, key, name)
    ensures Resolve(cfg, key) == if Named(name, cfg).Some? then Named(name, cfg).value else Builtin(cfg, key)
  {
    var i :| BoundAt(cfg.bindings, key, name, i);
    FindsFirst(cfg.bindings, key, name, i);
  }

  /** The names of the commands: each is that of the menu entry with the same command. */
  lemma PaneNames()
    ensures ServerCommand("focus-left") == Some(Focus(Left)) && ServerCommand("focus-down") == Some(Focus(Down))
    ensures ServerCommand("focus-up") == Some(Focus(Up)) && ServerCommand("focus-right") == Some(Focus(Right))
    ensures ServerCommand("resize-left") == Some(ResizePane(Left))
    ensures ServerCommand("resize-down") == Some(ResizePane(Down))
    ensures ServerCommand("resize-up") == Some(ResizePane(Up))
    ensures ServerCommand("resize-right") == Some(ResizePane(Right))
    ensures ServerCommand("split-right") == Some(Split(LeftRight))
    ensures ServerCommand("split-down") == Some(Split(TopBottom))
    ensures ServerCommand("zoom") == Some(ZoomToggle) && ServerCommand("kill-pane") == Some(KillPane)
  {
  }

  lemma TabNames()
    ensures ServerCommand("new-tab") == Some(NewWindow) && ServerCommand("next-tab") == Some(NextWindow)
    ensures ServerCommand("previous-tab") == Some(PrevWindow) && ServerCommand("kill-tab") == Some(KillWindow)
    ensures ServerCommand("move-tab-left") == Some(MoveTab(Previous))
    ensures ServerCommand("move-tab-right") == Some(MoveTab(Next))
    ensures ServerCommand("overview") == Some(Overview) && ServerCommand("copy-mode") == Some(CopyMode)
    ensures ServerCommand("today") == Some(Today) && ServerCommand("sidebar") == Some(SidebarToggle)
    ensures ServerCommand("files") == Some(FileSidebarToggle)
  {
  }

  lemma ActionNames()
    ensures ClientAction("detach") == Some(Detach) && ClientAction("new-task") == Some(ToggleOverlay)
    ensures ClientAction("observatory") == Some(Observatory) && ClientAction("tasks") == Some(Tasks)
    ensures ClientAction("agents") == Some(Agents) && ClientAction("rename-tab") == Some(Rename)
    ensures ClientAction("rename-workspace") == Some(RenameSession) && ClientAction("menu") == Some(Menu)
    ensures ClientAction("workspaces") == Some(Sessions) && ClientAction("settings") == Some(Settings)
    ensures ClientAction("projects") == Some(Projects) && ClientAction("new-project") == Some(NewProject)
    ensures ClientAction("close-workspace") == Some(CloseWorkspace)
  {
  }

  /** The names that the configuration file accepts. */
  predicate Accepted(name: string) {
    name in {
      "none", "detach", "split-right", "split-down", "focus-left", "focus-right", "focus-up", "focus-down",
      "resize-left", "resize-right", "resize-up", "resize-down", "zoom", "kill-pane", "new-tab", "next-tab",
      "previous-tab", "move-tab-left", "today", "move-tab-right", "kill-tab", "overview", "copy-mode", "files",
      "sidebar", "observatory", "new-task", "tasks", "agents", "rename-tab", "rename-workspace", "menu",
      "workspaces", "settings", "projects", "new-project", "close-workspace"}
  }

  /**
   The configuration accepts exactly the names that the client knows, except for two that the client knows and
   no configuration can use.
   */
  lemma AcceptedExactly(cfg: Config, name: string)
    ensures Accepted(name) <==> Named(name, cfg).Some? && name != "files-by-name" && name != "files-by-recency"
  {
  }

  /** "none" switches a key off, "menu" opens the menus, and a name that is not known leaves the built-in key alone. */
  lemma OtherNames(cfg: Config, key: Byte, name: string)
    requires BoundTo(cfg.bindings, key, name)
    ensures name == "none" ==> ByKey(Resolve(cfg, key)) == Nothing
    ensures name == "menu" ==> ByKey(Resolve(cfg, key)) == Opens(CommandMenu)
    ensures !Accepted(name) && name != "files-by-name" && name != "files-by-recency" ==>
              Resolve(cfg, key) == Builtin(cfg, key)
  {
    BoundIsNamed(cfg, key, name);
    AcceptedExactly(cfg, name);
  }
}
