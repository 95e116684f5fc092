/** The messages and syntax-tree events that the chat parser passes around. */
module ChatTypes {

  datatype ToolCall = ToolCall(name: string, arguments: string, id: string)

  const NoCall := ToolCall("", "", "")

  datatype Message = Message(content: string, reasoning: string, calls: seq<ToolCall>)

  const Blank := Message("", "", [])

  datatype Tag =
    | Reasoning | Content
    | ToolOpen | ToolClose | ToolName | ToolId | ToolArgs
    | ArgOpen | ArgClose | ArgName | ArgValue | ArgStringValue
    | Other

  /** A tagged node of the syntax tree, in visiting order. */
  datatype Node = Node(tag: Tag, text: string)
}
