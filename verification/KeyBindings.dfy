/** What a key pressed after the prefix does: configured bindings first, then the built-in ones. */
module KeyBindings {
  import opened Bytes

  datatype Axis = LeftRight | TopBottom
  datatype Direction = Left | Right | Up | Down
  datatype TabMove = Previous | Next
  datatype FileOrder = Name | Recency

  datatype Command =
    | Split(axis: Axis) | Focus(dir: Direction) | ResizePane(dir: Direction)
    | ZoomToggle | KillPane | NewWindow | NextWindow | PrevWindow | SelectWindow(index: nat)
    | KillWindow | Overview | CopyMode | FileSidebarToggle | FileSort(order: FileOrder)
    | SidebarToggle | MoveTab(move: TabMove) | LastPane | Today

  datatype Action =
    | Detach | ToggleOverlay | Observatory | Tasks | Agents | Rename | RenameSession | Menu
    | Sessions | Settings | Projects | NewProject | CloseWorkspace | Confirm(command: Command)

  /** A binding may be switched off, act in the client, send a command, or type bytes. */
  datatype Effect = Ignore | Act(action: Action) | Send(command: Command) | Type(bytes: seq<Byte>)

  datatype Binding = Binding(key: Byte, action: string)

  datatype Config = Config(prefix: Byte, confirmClose: bool, confirmTabClose: bool, bindings: seq<Binding>)

  predicate RequiresConfirmation(command: Command, cfg: Config) {
    match command
    case KillPane => cfg.confirmClose
    case KillWindow => cfg.confirmTabClose
    case _ => false
  }

  function Issue(command: Command, cfg: Config): Effect {
    if RequiresConfirmation(command, cfg) then Act(Confirm(command)) else Send(command)
  }

  /** The first binding of the key decides, even when its action name is unknown. */
  function FindBinding(key: Byte, bindings: seq<Binding>): Option<string> {
    if bindings == [] then None
    else if bindings[0].key == key then Some(bindings[0].action)
    else FindBinding(key, bindings[1..])
  }

  function ClientAction(name: string): Option<Action> {
    match name
    case "detach" => Some(Detach)
    case "new-task" => Some(ToggleOverlay)
    case "observatory" => Some(Observatory)
    case "tasks" => Some(Tasks)
    case "agents" => Some(Agents)
    case "rename-tab" => Some(Rename)
    case "rename-workspace" => Some(RenameSession)
    case "menu" => Some(Menu)
    case "workspaces" => Some(Sessions)
    case "settings" => Some(Settings)
    case "projects" => Some(Projects)
    case "new-project" => Some(NewProject)
    case "close-workspace" => Some(CloseWorkspace)
    case _ => None
  }

  function ServerCommand(name: string): Option<Command> {
    match name
    case "today" => Some(Today)
    case "split-right" => Some(Split(LeftRight))
    case "split-down" => Some(Split(TopBottom))
    case "focus-left" => Some(Focus(Left))
    case "focus-right" => Some(Focus(Right))
    case "focus-up" => Some(Focus(Up))
    case "focus-down" => Some(Focus(Down))
    case "resize-left" => Some(ResizePane(Left))
    case "resize-right" => Some(ResizePane(Right))
    case "resize-up" => Some(ResizePane(Up))
    case "resize-down" => Some(ResizePane(Down))
    case "zoom" => Some(ZoomToggle)
    case "kill-pane" => Some(KillPane)
    case "new-tab" => Some(NewWindow)
    case "next-tab" => Some(NextWindow)
    case "previous-tab" => Some(PrevWindow)
    case "move-tab-left" => Some(MoveTab(Previous))
    case "move-tab-right" => Some(MoveTab(Next))
    case "kill-tab" => Some(KillWindow)
    case "overview" => Some(Overview)
    case "copy-mode" => Some(CopyMode)
    case "files" => Some(FileSidebarToggle)
    case "files-by-name" => Some(FileSort(Name))
    case "files-by-recency" => Some(FileSort(Recency))
    case "sidebar" => Some(SidebarToggle)
    case _ => None
  }

  function ConfiguredEffect(key: Byte, cfg: Config): Option<Effect> {
    match FindBinding(key, cfg.bindings)
    case None => None
    case Some(name) =>
      if name == "none" then Some(Ignore)
      else if ClientAction(name).Some? then Some(Act(ClientAction(name).value))
      else if ServerCommand(name).Some? then Some(Issue(ServerCommand(name).value, cfg))
      else None
  }

  /** The built-in client actions, by key. */
  function BuiltinAction(key: Byte): Option<Action> {
    if key == 'N' as int then Some(ToggleOverlay)
    else if key == 'o' as int then Some(Observatory)
    else if key == 't' as int then Some(Tasks)
    else if key == 'a' as int then Some(Agents)
    else if key == ',' as int then Some(Rename)
    else if key == '$' as int then Some(RenameSession)
    else if key == 'm' as int then Some(Menu)
    else if key == 's' as int then Some(Sessions)
    else if key == 'g' as int then Some(Settings)
    else if key == 'P' as int then Some(Projects)
    else if key == 'A' as int then Some(NewProject)
    else if key == 'Q' as int then Some(CloseWorkspace)
    else None
  }

  /** The built-in server commands, by key; tabs are numbered from 1, and 0 is tab 10. */
  function CommandFor(key: Byte): Option<Command> {
    if key == '%' as int then Some(Split(LeftRight))
    else if key == '"' as int then Some(Split(TopBottom))
    else if key == 'h' as int then Some(Focus(Left))
    else if key == 'j' as int then Some(Focus(Down))
    else if key == 'k' as int then Some(Focus(Up))
    else if key == 'l' as int then Some(Focus(Right))
    else if key == 'z' as int then Some(ZoomToggle)
    else if key == 'x' as int then Some(KillPane)
    else if key == 'c' as int then Some(NewWindow)
    else if key == 'n' as int then Some(NextWindow)
    else if key == 'p' as int then Some(PrevWindow)
    else if '1' as int <= key <= '9' as int then Some(SelectWindow(key - '1' as int))
    else if key == '0' as int then Some(SelectWindow(9))
    else if key == '&' as int then Some(KillWindow)
    else if key == 'w' as int then Some(Overview)
    else if key == '[' as int then Some(CopyMode)
    else if key == 'f' as int then Some(FileSidebarToggle)
    else if key == 'b' as int then Some(SidebarToggle)
    else if key == 'H' as int then Some(ResizePane(Left))
    else if key == 'J' as int then Some(ResizePane(Down))
    else if key == 'K' as int then Some(ResizePane(Up))
    else if key == 'L' as int then Some(ResizePane(Right))
    else if key == '<' as int then Some(MoveTab(Previous))
    else if key == '>' as int then Some(MoveTab(Next))
    else if key == ';' as int then Some(LastPane)
    else if key == 'D' as int then Some(Today)
    else None
  }

  function Resolve(cfg: Config, key: Byte): Effect {
    if ConfiguredEffect(key, cfg).Some? then ConfiguredEffect(key, cfg).value else Builtin(cfg, key)
  }

  /** An unbound key is typed after the prefix it followed; a doubled prefix is typed once. */
  function Builtin(cfg: Config, key: Byte): Effect {
    if BuiltinAction(key).Some? then Act(BuiltinAction(key).value)
    else if CommandFor(key).Some? then Issue(CommandFor(key).value, cfg)
    else if key == 'd' as int then Act(Detach)
    else if key == cfg.prefix then Type([cfg.prefix])
    else Type([cfg.prefix, key])
  }

  function Table(cfg: Config): Byte -> Effect {
    (key: Byte) => Resolve(cfg, key)
  }

  predicate BuiltinKey(key: Byte) {
    BuiltinAction(key).Some? || CommandFor(key).Some? || key == 'd' as int
  }

  /** A key types bytes exactly when neither the configuration nor the built-in table binds it. */
  lemma UnboundKeysAreTyped(cfg: Config, key: Byte)
    ensures Resolve(cfg, key).Type? <==> ConfiguredEffect(key, cfg).None? && !BuiltinKey(key)
    ensures Resolve(cfg, key).Type? ==>
              Resolve(cfg, key).bytes == if key == cfg.prefix then [key] else [cfg.prefix, key]
  {
  }
}
