/**
 * The records of the Civic Lens dataset: parties, politicians and key
 * issues. Only the fields the program's logic reads are kept.
 */
module CivicTypes {

  /** The `Party` enum; each member stands for its string value (`PartyName`). */
  datatype Party = Conservative | Liberal | NDP | BlocQuebecois | Green

  function PartyName(p: Party): (name: string)
    ensures |name| > 0
  {
    match p
    case Conservative => "Conservative"
    case Liberal => "Liberal"
    case NDP => "NDP"
    case BlocQuebecois => "Bloc Québécois"
    case Green => "Green"
  }

  /** Distinct parties have distinct string values, so comparing values compares parties. */
  lemma PartyNameInjective(a: Party, b: Party)
    ensures PartyName(a) == PartyName(b) ==> a == b
  {
  }

  datatype Politician = Politician(
    id: int,
    name: string,
    party: Party,
    position: string,
    keyIssues: seq<string>,           // ids of key issues
    relatedPoliticianIds: seq<int>)

  datatype KeyIssue = KeyIssue(id: string, title: string, description: string)
}
