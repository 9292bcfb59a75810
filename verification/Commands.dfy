/** The commands of a shell program as far as control flow sees them. */
module Commands {
  import opened Basics

  // A compound list: one and-or list after the other.
  datatype Prog = Last(first: AndOr) | Next(first: AndOr, rest: Prog)

  datatype AndOr = AndOr(cmd: Cmd, clauses: Clauses)

  // What follows the first pipeline: `&&` runs its command on success, `||` on failure.
  datatype Clauses = End | Clause(onSuccess: bool, cmd: Cmd, rest: Clauses)

  // Break(n) with n < 1 stands for any argument that is no positive number.
  datatype Cmd =
    | Simple(name: string)
    | Break(n: int)
    | Continue(n: int)
    | Group(body: Prog)
    | If(test: Prog, body: Prog, other: Else)
    | For(name: string, words: seq<string>, body: Prog)
    | While(until: bool, test: Prog, body: Prog)

  datatype Else = NoElse | Else(body: Prog)

  datatype Event = Ran(name: string) | Bound(name: string, word: string)

  /** What lies outside: the exit status of a simple command, given all that happened before
      it, or None when it cannot be run at all; and the variables that are read-only. */
  datatype World = World(status: (string, seq<Event>) -> Option<int>, readonly: set<string>)

  /** Every break and continue stays within the loops around it, depth of them, and the tests
      of if, while and until leave no loop around them. At loop level 0 they are only errors. */
  predicate Bounded(p: Prog, depth: nat, level: nat) {
    match p
    case Last(a) => BoundedAndOr(a, depth, level)
    case Next(a, rest) => BoundedAndOr(a, depth, level) && Bounded(rest, depth, level)
  }

  predicate BoundedAndOr(a: AndOr, depth: nat, level: nat) {
    BoundedCmd(a.cmd, depth, level) && BoundedClauses(a.clauses, depth, level)
  }

  predicate BoundedClauses(cs: Clauses, depth: nat, level: nat) {
    match cs
    case End => true
    case Clause(_, c, rest) => BoundedCmd(c, depth, level) && BoundedClauses(rest, depth, level)
  }

  predicate BoundedCmd(c: Cmd, depth: nat, level: nat) {
    match c
    case Simple(_) => true
    case Break(n) => level == 0 || n <= depth
    case Continue(n) => level == 0 || n <= depth
    case Group(p) => Bounded(p, depth, level)
    case If(t, p, e) =>
      && Bounded(t, 0, level) && Bounded(p, depth, level)
      && (e.Else? ==> Bounded(e.body, depth, level))
    case For(_, _, p) => Bounded(p, depth + 1, level + 1)
    case While(_, t, p) => Bounded(t, 0, level + 1) && Bounded(p, depth + 1, level + 1)
  }
}
