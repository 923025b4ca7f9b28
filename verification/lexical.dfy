/** The editing framework as this code sees it: a node tree reached through
    parent pointers, a current selection, and the commands the toolbar
    dispatches. Nothing here models how the framework applies a command. */
module Lexical {
  import opened Common
  import ImageNodes

  type NodeKey = string

  /** The key the framework gives the root node. */
  const RootKey: NodeKey := "root"

  datatype NodeKind =
    | Root
    | Paragraph
    | Heading(tag: string)
    | Quote
    | CodeBlock
    | List(listType: string)
    | ListItem
    | Link
    | TableCell
    | Text
    | Other(name: string)

  /** A node and the key of its parent (`None` is a null parent). */
  datatype Node = Node(kind: NodeKind, parent: Option<NodeKey>)

  /** The document: every node by key. */
  type Tree = map<NodeKey, Node>

  /** Root and shadow roots (table cells) end the search for a top-level element. */
  predicate IsRootOrShadowRoot(k: NodeKind) {
    k.Root? || k.TableCell?
  }

  /** `node.getParent()`: the parent node, or null when the node has no parent
      or its parent key no longer resolves. */
  function GetParent(t: Tree, n: NodeKey): (p: Option<NodeKey>)
    ensures p.Some? ==> n in t && p.value in t && t[n].parent == Some(p.value)
    ensures n in t && t[n].parent.Some? && t[n].parent.value in t ==> p.Some?
  {
    if n in t && t[n].parent.Some? && t[n].parent.value in t then t[n].parent else None
  }

  /** The text formats a range selection can carry. */
  datatype TextFormat = Bold | Italic | Underline | Strikethrough | Code | Highlight | Subscript | Superscript

  /** The framework's name of a format, as passed to `hasFormat`. */
  function FormatName(f: TextFormat): string {
    match f
    case Bold => "bold"
    case Italic => "italic"
    case Underline => "underline"
    case Strikethrough => "strikethrough"
    case Code => "code"
    case Highlight => "highlight"
    case Subscript => "subscript"
    case Superscript => "superscript"
  }

  /** The current selection. Only a range selection drives the toolbars; its
      format flags, text and colour style are the framework's answers to
      `hasFormat`, `getTextContent` and `$getSelectionStyleValueForProperty`. */
  datatype Selection =
    | NoSelection
    | NodeSelection
    | RangeSelection(anchor: NodeKey, formats: set<TextFormat>, isCollapsed: bool, text: string, color: Option<string>)

  /** Block types the block-format buttons install with `$setBlocksType`. */
  datatype BlockTarget = ParagraphBlock | HeadingBlock(tag: string) | QuoteBlock | CodeBlockTarget

  /** Commands dispatched to (or updates run in) the editor. */
  datatype Command =
    | FormatText(format: TextFormat)
    | SetBlocks(target: BlockTarget)
    | InsertUnorderedList
    | InsertOrderedList
    | InsertCheckList
    | RemoveList
    | ToggleLink(url: Option<string>)
    | InsertTable(rows: string, columns: string)
    | InsertImage(node: ImageNodes.ImageNode)
    | PatchStyle(property: string, value: string)
    | Undo
    | Redo
    | InsertHorizontalRule
    | FormatElement(alignment: string)
}
