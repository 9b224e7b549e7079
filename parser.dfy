/**
 * The C bootstrap parser's token push-back stack (`Parser`, `parser_new`,
 * `parser_pop`, `parser_push`, `parser_peek` in `src/parser_1.h`) and the
 * error branch of `parser_parse_global_decl`.
 *
 * The lexer is not part of this model: `lexer_new(data)` is represented by
 * the stream of tokens `lexer_next` would return, `lexer(0)`, `lexer(1)`,
 * ..., and the lexer's state by how many of them were taken.
 */
module Parser {
  /** The token kinds the global-declaration switch names; every other kind is `TokOther`. */
  datatype TokKind =
    | TokTypedef | TokStruct | TokUnion | TokIdent
    | TokVoid | TokChar | TokInt | TokUnsigned | TokLong | TokFloat | TokDouble | TokShort
    | TokOther(code: nat)

  datatype Range = Range(start: nat, end: nat)

  datatype Token = Token(kind: TokKind, range: Range)

  /**
   * What is still to be read: the pushed-back tokens (the last one on top)
   * and how many tokens the lexer has handed out.
   */
  datatype Pending = Pending(stack: seq<Token>, lexPos: nat)

  /** The `k`-th token the following pops will return: the stack from the top, then the lexer. */
  function Upcoming(lexer: nat -> Token, p: Pending, k: nat): Token
  {
    if k < |p.stack| then p.stack[|p.stack| - 1 - k] else lexer(p.lexPos + k - |p.stack|)
  }

  /**
   * `parser_pop`: the top of the stack when there is one, else the lexer's
   * next token.  Everything after the token returned moves up by one.
   */
  function PopState(lexer: nat -> Token, p: Pending): (r: (Token, Pending))
    ensures r.0 == Upcoming(lexer, p, 0)
    ensures forall k: nat :: Upcoming(lexer, r.1, k) == Upcoming(lexer, p, k + 1)
    ensures |p.stack| == 0 ==> r.1 == Pending([], p.lexPos + 1)
    ensures |p.stack| > 0 ==> r.1.lexPos == p.lexPos && r.1.stack + [r.0] == p.stack
  {
    if |p.stack| > 0 then (p.stack[|p.stack| - 1], Pending(p.stack[..|p.stack| - 1], p.lexPos))
    else (lexer(p.lexPos), Pending([], p.lexPos + 1))
  }

  /** `parser_push`: the token goes on top of the stack; the lexer is not touched. */
  function PushState(p: Pending, tok: Token): Pending
  {
    Pending(p.stack + [tok], p.lexPos)
  }

  /** After a push, the pushed token comes first and everything else moves down by one. */
  lemma PushUpcoming(lexer: nat -> Token, p: Pending, tok: Token)
    ensures Upcoming(lexer, PushState(p, tok), 0) == tok
    ensures forall k: nat :: Upcoming(lexer, PushState(p, tok), k + 1) == Upcoming(lexer, p, k)
  {
  }

  /** `parser_pop` after `parser_push` returns the pushed token and restores the stack: last in, first out. */
  lemma PopAfterPush(lexer: nat -> Token, p: Pending, tok: Token)
    ensures PopState(lexer, PushState(p, tok)) == (tok, p)
  {
    assert (p.stack + [tok])[..|p.stack|] == p.stack;
  }

  /**
   * `parser_peek` (a pop, then a push of the same token) leaves what is to be
   * read unchanged, and returns the token the next pop returns; a token
   * peeked from the lexer stays on the stack.
   */
  lemma PeekKeepsStream(lexer: nat -> Token, p: Pending)
    ensures var (tok, q) := PopState(lexer, p);
            tok == Upcoming(lexer, p, 0)
            && |PushState(q, tok).stack| == (if |p.stack| == 0 then 1 else |p.stack|)
            && forall k: nat :: Upcoming(lexer, PushState(q, tok), k) == Upcoming(lexer, p, k)
  {
    var (tok, q) := PopState(lexer, p);
    PushUpcoming(lexer, q, tok);
    forall k: nat
      ensures Upcoming(lexer, PushState(q, tok), k) == Upcoming(lexer, p, k)
    {
      if k > 0 {
        assert Upcoming(lexer, PushState(q, tok), (k - 1) + 1) == Upcoming(lexer, q, k - 1);
      }
    }
  }

  /** The capacity after `parser_push`: grown to `cap/2 + cap + 16` when there is no buffer or it is full. */
  function PushCapacity(hasBuffer: bool, capacity: nat, end: nat): (c: nat)
    requires end <= capacity
    ensures c > end
    ensures hasBuffer && end < capacity ==> c == capacity
    ensures !hasBuffer || end == capacity ==> c >= capacity + 16
  {
    if !hasBuffer || end == capacity then capacity / 2 + capacity + 16 else capacity
  }

  /** The messages `parser_parse_global_decl` reports for a token it cannot start a declaration with. */
  const UNRECOGNIZED_TOKEN := "found unrecognized token"
  const NOT_ALLOWED_GLOBAL := "this token is not allowed in the global context"

  /** An error: its message and the source ranges labelled in it (`error_new`, `error_array_add`). */
  datatype Error = Error(message: string, labels: seq<(Range, string)>)

  /** What `parser_parse_global_decl` decides from the first token. */
  datatype GlobalDecl =
    | StmtError(err: Error)
      /** Handed to `parser_parse_type_prefix`, remembering whether the declaration is a `typedef`. */
    | TypePrefix(typedefVar: bool)

  /** The kinds a global declaration may start with: `typedef`, `struct`, `union`, an identifier or a type keyword. */
  predicate StartsGlobalDecl(k: TokKind)
  {
    !k.TokOther?
  }

  /** The switch of `parser_parse_global_decl` on the peeked token. */
  function GlobalDeclOf(tok: Token): (r: GlobalDecl)
    ensures r.StmtError? <==> !StartsGlobalDecl(tok.kind)
    ensures r.StmtError? ==> r.err == Error(UNRECOGNIZED_TOKEN, [(tok.range, NOT_ALLOWED_GLOBAL)])
    ensures r.TypePrefix? ==> (r.typedefVar <==> tok.kind == TokTypedef)
  {
    match tok.kind
    case TokOther(_) => StmtError(Error(UNRECOGNIZED_TOKEN, [(tok.range, NOT_ALLOWED_GLOBAL)]))
    case _ => TypePrefix(tok.kind == TokTypedef)
  }

  class Parser {
    /** The tokens `lexer_next` hands out, in order. */
    const lexer: nat -> Token
    /** How many tokens `lexer_next` has handed out. */
    var lexPos: nat
    /** `begin != NULL`. */
    var hasBuffer: bool
    /** `begin[0..end)`, the pushed-back tokens. */
    var tokens: seq<Token>
    var end: nat
    var capacity: nat

    ghost predicate Valid()
      reads this
    {
      end == |tokens| <= capacity && (!hasBuffer ==> capacity == 0)
    }

    /** What is still to be read. */
    function State(): Pending
      reads this
    {
      Pending(tokens, lexPos)
    }

    /** `parser_new`: a fresh lexer and an empty stack, nothing allocated. */
    constructor (lexer: nat -> Token)
      ensures Valid() && this.lexer == lexer
      ensures !hasBuffer && tokens == [] && end == 0 && capacity == 0 && lexPos == 0
    {
      this.lexer := lexer;
      lexPos, hasBuffer, tokens, end, capacity := 0, false, [], 0, 0;
    }

    /** `parser_pop`. */
    method Pop() returns (tok: Token)
      requires Valid()
      modifies this
      ensures Valid()
      ensures (tok, State()) == PopState(lexer, old(State()))
      ensures hasBuffer == old(hasBuffer) && capacity == old(capacity)
    {
      if end > 0 {
        end := end - 1;
        tok := tokens[end];
        tokens := tokens[..end];
      } else {
        tok := lexer(lexPos);
        lexPos := lexPos + 1;
      }
    }

    /** `parser_push`. */
    method Push(tok: Token)
      requires Valid()
      modifies this
      ensures Valid() && hasBuffer
      ensures State() == PushState(old(State()), tok)
      ensures capacity == PushCapacity(old(hasBuffer), old(capacity), old(end))
    {
      if !hasBuffer || end == capacity {
        capacity := capacity / 2 + capacity + 16;
        hasBuffer := true;
      }
      tokens := tokens + [tok];
      end := end + 1;
    }

    /** `parser_peek`: pop a token and push it back. */
    method Peek() returns (tok: Token)
      requires Valid()
      modifies this
      ensures Valid() && hasBuffer
      ensures (tok, PopState(lexer, old(State())).1) == PopState(lexer, old(State()))
      ensures State() == PushState(PopState(lexer, old(State())).1, tok)
    {
      tok := Pop();
      Push(tok);
    }

    /**
     * `parser_parse_global_decl` up to its switch: the first token is
     * peeked, so on an error it is still the next token to be read.  The
     * accepted branch ends where `parser_parse_type_prefix` would be called.
     */
    method ParseGlobalDecl() returns (r: GlobalDecl)
      requires Valid()
      modifies this
      ensures Valid()
      ensures r == GlobalDeclOf(Upcoming(lexer, old(State()), 0))
      ensures r.StmtError? ==> forall k: nat :: Upcoming(lexer, State(), k) == Upcoming(lexer, old(State()), k)
    {
      PeekKeepsStream(lexer, State());
      var tok := Peek();
      match tok.kind
      case TokOther(_) =>
        var err := Error(UNRECOGNIZED_TOKEN, []);
        err := err.(labels := err.labels + [(tok.range, NOT_ALLOWED_GLOBAL)]);
        r := StmtError(err);
      case _ =>
        r := TypePrefix(tok.kind == TokTypedef);
    }
  }
}
