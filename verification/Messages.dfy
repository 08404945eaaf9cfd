/** What a reply holds so far. */
module Messages {

  datatype ToolCall = ToolCall(name: string, arguments: string, id: string)

  datatype Message = Message(reasoning: string, content: string, toolCalls: seq<ToolCall>)
}
