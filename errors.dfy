// The exceptions the library raises, as data: which builder of
// ExceptionBuilder made it and the values its message is built from.
// Message text is not modelled.
module Errors {
  import opened Domains

  datatype Error =
    // Object creation
    | NameIsNullOrWhitespace
    | InvalidNaming(name: string)
    | ValueTypeMismatch(value: Num, domain: ValueDomain)
    // Calculation
    | ArityMismatch(arity: nat)
    | SignatureMismatch(arguments: seq<Num>, expectedTypes: seq<ValueDomain>)
    // Math collection processing
    | SeveralErrorsDuringMathCollectionProcessing(inner: seq<Error>)
    | ConstantNotFound(name: string)
    | FunctionNotFound(name: string, arity: nat)
    | ConflictOnConstantInsertion(name: string)
    | ConflictOnFunctionInsertion(name: string, arity: nat)
    | DuplicateInInputFunctionArray(name: string, arity: nat)
    | DuplicateInInputConstantArray(name: string)
    // Parsing
    | SeveralErrorsWhileParsing(expression: string, inner: seq<Error>)
    | ErrorOccuredWhileParsing(expression: string, cause: Error)
    | ExpressionStringIsNullOrWhitespace
    | ExpressionStringMustContainLiteralsOrNames
    | InvalidCharacter(index: int)
    | InvalidParenthesis
    | InvalidLiteral(literal: string, index: int)
    | InvalidName(name: string, index: int)
    | UndefinedFunction(name: string, index: int)
    | UnexpectedArgumentSeparatorUsage(index: int)
    | InfixOperatorIsRequired(prevElement: string, prevIndex: int, nextElement: string, nextIndex: int)
    | NestedExpressionIsRequired(prevElement: string, prevIndex: int, nextElement: string, nextIndex: int)
    | UnexpectedOperatorUsage(operatorWord: string, index: int)
    | OperatorCanNotBeParsed(operatorWord: string, index: int)
    | InvalidFunctionCalling(name: string, index: int, numberOfArguments: int)
    | OperatorTypizationError(operatorWord: string, index: int)
    | FunctionTypizationError(name: string, index: int)
    | InsertedMultiplicationTypizationError
    | ArgumentTypizationError(name: string)
    // Raised by the parser itself when the tree builder returns nothing
    | UnmanagedError
}
