/** The part of a syntax tree that source-graph merging looks at. */
module SyntaxTrees {

  datatype Kind = ClassDef | MethodsBlock | FunctionDef | MethodPrototype | OtherKind

  datatype Span = Span(sourceId: nat, begin: nat, end: nat)

  /** What `parseFunctionSignature` reads out of a declaration, as far as signatures are compared. */
  datatype Signature = Signature(outputs: seq<string>, parameters: seq<string>, hasVarargout: bool, hasVarargin: bool)

  datatype Node = Node(kind: Kind, name: string, signature: Signature, attributes: seq<string>, span: Span,
                       children: seq<Node>)
}
