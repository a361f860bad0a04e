# MiniSharp toy interpreter, modelled in Dafny

MiniSharp is a tiny imperative scripting language written in C#. It has a
lexer, a recursive-descent parser and a tree-walking interpreter. Its only
values are C# `int`s. It has `let` declarations, assignment, `print`,
`while` and lexically scoped blocks. `if`/`else` are reserved words, and
the interpreter can execute an `If` node, but no grammar rule produces one.

This project models the whole pipeline:

- **`Tokens`** holds the token kinds, the keyword table and the symbol forms.
- **`LexerSpec`** is the specification of one scanning step (`ScanStep`) and of the whole scan (`Scan`, `Lex`), written as functions.
- **`LexerProperties`** proves, about those functions:
  - maximal munch of `==`, `!=`, `<=` and `>=`;
  - the keyword/identifier rule;
  - the number rule, including the 32-bit overflow case;
  - the error cases;
  - that the scan always ends in one EOF token on the last line;
  - that lines never decrease;
  - that the lexemes are exactly the source with whitespace removed;
  - that a decimal literal round-trips.
- **`Lexing`** is the `Lexer` class itself: `source`, `tokens`, `start`, `current` and `line` fields, and its methods each proved to compute the specification.
- **`Ast`** holds the expression and statement trees.
- **`Grammar`** is the recursive-descent grammar as functions over a token sequence and a position. Each function returns the parsed node and the next position, or the `ParseError` naming the offending token.
- **`GrammarSoundness`** proves that every parse error names a token at or after where parsing started, and that every parsed statement is one that program text can produce.
- **`ParserProperties`** proves:
  - for every token list without parentheses whose operator tokens are spelled with their own symbols, as every lexed list is (`Pipeline.LexedOperatorsConsistent`), equality, comparison, term and factor build the tree their precedence and left association prescribe: no operator has a looser one below it, an operator of the same level sits only in the left operand, and the tree's in-order reading is exactly the tokens consumed (`BinaryLevelShaped`);
  - the exact error of each way a `let` declaration can fail;
  - assignment associates to the right and accepts only a variable as its target;
  - `if`/`else` always give "Expected expression";
  - a `while` body cannot be a `let`;
  - an unclosed block fails.
- **`Parsing`** is the `Parser` class (`tokens`, `current`). Each of its methods agrees with the grammar function of the same name.
- **`ScopeChain` / `ScopeProperties`** define the scope chain as a sequence of maps, innermost first, with lookup, definition and assignment and their properties. The properties cover the nearest binding, shadowing, and that assignment never creates a binding.
- **`Environments`** is the `Environment` class with a `values` map and an `enclosing` reference. Its `Define`, `Get` and `Assign` are proved to act on its scope chain as `ScopeChain` says.
- **`Semantics` / `SemanticsProperties`** define the evaluator as functions:
  - 32-bit wrap-around for `+ - *`;
  - truncating division, including division by zero and `int.MinValue / -1`;
  - comparisons yield 0 or 1;
  - `while` re-evaluates its condition, under a fuel bound;
  - a block gets a fresh scope that is dropped afterwards;
  - the first runtime error stops the program and is reported after the output already printed.
- **`Interpreting`** is the `Interpreter` class (`environment`, `output`). Each visit method is proved to compute `Semantics`. `ExecuteBlock` puts the enclosing environment back whether the block completes or fails.
- **`Programs`** runs the statement trees of small programs through the evaluator. Each tree is written out as the parser builds it from the quoted source text; lexing and parsing that text is not part of these lemmas.
- **`Pipeline`** composes lex, parse and interpret the way the entry point does. It proves that a program that came from source text can never fail with "Unknown operator", and that the precedence results hold for lexed source.

Where the code differs from what a reader might expect of such a language, the model
follows the code:

- The lexer also skips `\r`.
- A `!` that is not followed by `=` is reported with its line but without the character.
- An integer literal larger than `int.MaxValue` fails when `int.Parse` overflows. That error carries no line (`LiteralOverflow`).
- `int.MinValue / -1` raises an overflow that the interpreter reports as a runtime error (`ArithmeticOverflow`).
- Assignment accepts a parenthesised variable as its target (`(a) = 1`), because grouping builds no node of its own.

## Model

| member | source | states |
|---|---|---|
| Tokens.WordKind | Lexer/Lexer.cs:95-102 | a scanned word is a keyword exactly when it is one of `let`, `if`, `else`, `while` and `print`, and the kind is then the keyword table's entry; otherwise it is `Identifier` |
| Tokens.KeywordTableIsOnto | Lexer/Lexer.cs:16-23 | the keyword table has five entries and its values are exactly the five keyword kinds |
| Tokens.KeywordTableIsOneToOne | Lexer/Lexer.cs:16-23 | no two reserved words share a token kind |
| Tokens.SymbolForms | Lexer/Lexer.cs:57-68 | a lone `!` is not a token, and `=`, `<` and `>` each have a distinct two-character form with `=` |
| Tokens.SymbolShape | Lexer/Lexer.cs:47-68 | every symbol is one or two of the punctuation characters, and its kind is never a keyword, identifier, number or EOF |
| Tokens.OperatorSymbols | Lexer/Lexer.cs:51-68 | a symbol has one of the ten binary-operator kinds exactly when its text is one of the ten operator symbols |
| LexerSpec.DigitRunEnd | Lexer/Lexer.cs:106 | the digit loop stops at the first non-digit or at the end of the source, and everything it passes is a digit |
| LexerSpec.WordEnd | Lexer/Lexer.cs:97 | the identifier loop stops at the first character that is not a letter or digit, and everything it passes is one |
| LexerSpec.ScanStep | Lexer/Lexer.cs:42-93 | an emitted token's lexeme is exactly the source it consumed and it carries the current line; only number tokens carry a value, which is the decimal value of their digits; a skipped character is whitespace and advances the line only on `\n` |
| LexerSpec.WordStep | Lexer/Lexer.cs:95-102 | a word is a maximal run of letters and digits from a letter, its token kind is the keyword it spells or `Identifier`, and it carries no value |
| LexerSpec.NumberStep | Lexer/Lexer.cs:104-110 | a number is a maximal run of digits; it yields a `Number` token whose value is the decimal value of the run, or fails with the run's text when that value exceeds `int.MaxValue` |
| LexerSpec.Scan | Lexer/Lexer.cs:30-40 | a successful scan yields at most one token per remaining character plus the EOF token with an empty lexeme, which comes last |
| LexerSpec.Lex | Lexer/Lexer.cs:30-40 | the token list of a whole source has at most one token per character plus the final EOF token |
| LexerProperties.ScanStepAgreesWithClassify | Lexer/Lexer.cs:42-93 | the kind of every emitted token is the one its lexeme alone determines |
| LexerProperties.SymbolStep | Lexer/Lexer.cs:47-68 | a token that is not a word or number is a symbol with the kind the symbol table gives it |
| LexerProperties.ScanStepCases | Lexer/Lexer.cs:42-93 | a character is skipped exactly when it is whitespace; scanning fails exactly on `!` without `=`, an unrecognised character or an overflowing literal; both of those errors carry the current line, and the unrecognised-character error also carries the character |
| LexerProperties.MaximalMunch | Lexer/Lexer.cs:57-68 | `=`, `<`, `>` and `!` take two characters exactly when `=` follows; they take one otherwise, except `!`, which then fails |
| LexerProperties.WordRule | Lexer/Lexer.cs:95-102 | a letter starts a word token that runs to the first non-alphanumeric character, and it is a keyword exactly when the word is reserved |
| LexerProperties.NumberRule | Lexer/Lexer.cs:104-110 | a digit starts the longest digit run; it becomes a number token with its decimal value when that value fits in `int`, and a `LiteralOverflow` error otherwise |
| LexerProperties.SkipCountsNewline | Lexer/Lexer.cs:70-76 | skipping a character keeps the current line plus the newlines still ahead unchanged |
| LexerProperties.StepTokenWellFormed | Lexer/Lexer.cs:123-127 | every emitted token is well formed: not EOF, of the kind its lexeme determines, with a value exactly when it is a number, and that value the decimal value of its digits |
| LexerProperties.ScanEndsWithEof | Lexer/Lexer.cs:30-40 | a successful scan ends in exactly one EOF token, on the starting line plus the number of newlines scanned |
| LexerProperties.ScanCoversSource | Lexer/Lexer.cs:30-40 | the lexemes of a successful scan, concatenated, are the scanned source with whitespace removed |
| LexerProperties.ScanLinesNondecreasing | Lexer/Lexer.cs:30-40 | token lines never go below the starting line and never decrease along the token list |
| LexerProperties.ScanTokensWellFormed | Lexer/Lexer.cs:30-40 | every token of a successful scan before the EOF is well formed |
| LexerProperties.LexEndsWithEof | Lexer/Lexer.cs:30-40 | lexing a whole source ends in one EOF on line 1 plus its newline count, with well-formed tokens before it, nondecreasing lines, and lexemes that spell the source without whitespace |
| LexerProperties.DecimalValueString | Lexer/Lexer.cs:104-110 | a digit string without a leading zero is the decimal notation of its own value |
| LexerProperties.LiteralRoundTrip | Lexer/Lexer.cs:104-110 | the decimal notation of any `int` from 0 to `int.MaxValue` lexes to one number token with that text and value, then EOF, both on line 1 |
| Lexing.Lexer.constructor | Lexer/Lexer.cs:25-28 | a new lexer holds the source, no tokens, start and current at 0, and line 1 |
| Lexing.Lexer.ScanTokens | Lexer/Lexer.cs:30-40 | the scanning loop returns the tokens already held followed by the specification's scan from the current position and line; on success the lexer has consumed the whole source and holds exactly the returned tokens |
| Lexing.Lexer.ScanToken | Lexer/Lexer.cs:42-93 | one step of the lexer appends, skips or fails exactly as the specification's step does, and moves `current` and `line` as it says |
| Lexing.Lexer.Identifier | Lexer/Lexer.cs:95-102 | the identifier loop stops at the end of the word and appends one keyword-or-identifier token for it |
| Lexing.Lexer.Number | Lexer/Lexer.cs:104-110 | the number loop stops at the end of the digit run and appends its value, or reports `LiteralOverflow` when the value exceeds `int.MaxValue` |
| Lexing.Lexer.Match | Lexer/Lexer.cs:112-117 | consumes the next character exactly when one is left and it is the expected one |
| Lexing.Lexer.Peek | Lexer/Lexer.cs:119 | a non-NUL result is the character at the current position |
| Lexing.Lexer.Advance | Lexer/Lexer.cs:121 | returns the current character and moves past it |
| Lexing.Lexer.AddToken | Lexer/Lexer.cs:123-127 | appends one token whose lexeme is the text from `start` to `current`, on the current line |
| Lexing.ScanSource | Program.cs:9-10 | constructing a lexer and scanning yields exactly `Lex(source)` |
| Grammar.Expression | Parser/Parser.cs:89-92 | a successful expression parse consumes at least one token and stops before the EOF |
| Grammar.Assignment | Parser/Parser.cs:94-112 | a successful assignment parse consumes at least one token and stops before the EOF |
| Grammar.Operand | Parser/Parser.cs:114-168 | an operand at any precedence level consumes at least one token and stops before the EOF |
| Grammar.BinaryLevel | Parser/Parser.cs:114-168 | each of equality, comparison, term and factor consumes at least one token and stops before the EOF |
| Grammar.LevelRest | Parser/Parser.cs:118-123 | the operator loop of a level never moves backwards and stops before the EOF |
| Grammar.Primary | Parser/Parser.cs:170-190 | a primary consumes at least one token and stops before the EOF |
| Grammar.Terminated | Parser/Parser.cs:53-65 | an expression statement body ends just after a `;` |
| Grammar.Declaration | Parser/Parser.cs:30-34 | a declaration consumes at least one token and stops before the EOF |
| Grammar.VarDeclaration | Parser/Parser.cs:36-43 | a `let` yields a `Var` statement named by the identifier token, with `=` after that token and `;` as the last token consumed |
| Grammar.Statement | Parser/Parser.cs:45-51 | a statement is never a `Var` |
| Grammar.PrintStatement | Parser/Parser.cs:53-58 | `print` yields a `Print` statement ending in `;` |
| Grammar.ExpressionStatement | Parser/Parser.cs:60-65 | an expression statement yields an `ExprStmt` ending in `;` |
| Grammar.WhileStatement | Parser/Parser.cs:67-72 | `while` yields a `While` statement |
| Grammar.BlockStatement | Parser/Parser.cs:74-85 | `{` yields a `Block` statement whose last token is `}` |
| Grammar.BlockRest | Parser/Parser.cs:78-83 | the block loop ends just after a `}` and yields a `Block` |
| Grammar.ProgramRest | Parser/Parser.cs:23-26 | the program loop only appends statements to those already parsed, at most one per remaining token |
| Grammar.Parse | Parser/Parser.cs:20-28 | a token list that is only the EOF token parses to the empty program, and a parsed program has fewer statements than there are tokens |
| GrammarSoundness.ExpressionSound | Parser/Parser.cs:89-92 | an expression parse error names a token at or after the start; a parsed expression only uses operator symbols that occur in the tokens |
| GrammarSoundness.AssignmentSound | Parser/Parser.cs:94-112 | the same for assignment, including the invalid-target error reported at the `=` |
| GrammarSoundness.OperandSound | Parser/Parser.cs:114-168 | the same for an operand of a precedence level |
| GrammarSoundness.BinaryLevelSound | Parser/Parser.cs:114-168 | the same for each binary precedence level |
| GrammarSoundness.LevelRestSound | Parser/Parser.cs:118-123 | the same for the operator loop of a level, given a left operand that is already sound |
| GrammarSoundness.PrimarySound | Parser/Parser.cs:170-190 | the same for literals, variables, parenthesised expressions and "Expected expression" |
| GrammarSoundness.TerminatedSound | Parser/Parser.cs:60-65 | the same for an expression followed by `;` |
| GrammarSoundness.DeclarationSound | Parser/Parser.cs:30-34 | a declaration error names a token at or after the start; a parsed declaration is one program text can produce |
| GrammarSoundness.VarDeclarationSound | Parser/Parser.cs:36-43 | the same for `let` declarations |
| ParserProperties.VarDeclarationOutcome | Parser/Parser.cs:36-43 | a missing name, a missing `=` and a missing `;` fail with "Expected variable name.", "Expected '=' after variable name." and "Expected ';' after variable declaration." at the offending token; an error in the initializer passes through; otherwise the result is `Var(name, initializer)` ending after the `;` |
| GrammarSoundness.StatementSound | Parser/Parser.cs:45-51 | the same for statements |
| GrammarSoundness.PrintStatementSound | Parser/Parser.cs:53-58 | the same for `print` |
| GrammarSoundness.ExpressionStatementSound | Parser/Parser.cs:60-65 | the same for expression statements |
| GrammarSoundness.WhileStatementSound | Parser/Parser.cs:67-72 | the same for `while`, whose body is never a `let` |
| GrammarSoundness.BlockRestSound | Parser/Parser.cs:74-85 | the same for blocks |
| GrammarSoundness.ProgramRestSound | Parser/Parser.cs:20-28 | the same for the program loop |
| GrammarSoundness.ParseSound | Parser/Parser.cs:20-28 | a parse error names a real token of the input; every parsed statement is free of `If`, has no `let` as a loop body, and uses only operator symbols from the tokens |
| ParserProperties.ExpressionFailsAtPrimary | Parser/Parser.cs:189 | when no primary can start at a token, the whole expression fails with the primary's error |
| ParserProperties.ExpressionStatementFails | Parser/Parser.cs:45-51 | a declaration that does not start with `let`, `print`, `while` or `{` fails exactly as its expression does |
| ParserProperties.NoIfProduction | Parser/Parser.cs:45-51 | a declaration starting with `if` or `else` fails with "Expected expression" at that token |
| ParserProperties.WhileBodyIsNoDeclaration | Parser/Parser.cs:67-72 | a `let` directly after a `while` condition fails with "Expected expression" at the `let` |
| ParserProperties.LevelRestFoldsLeft | Parser/Parser.cs:114-168 | the operator loop of each level keeps the operand read before it at the bottom of the left spine of the tree it builds, and every node on that spine carries one of that level's operator symbols |
| ParserProperties.PrimaryShaped | Parser/Parser.cs:170-190 | a number or a name parses to a single leaf that reads as its one token |
| ParserProperties.OperandShaped | Parser/Parser.cs:114-168 | an operand of a level, parsed without parentheses, is ranked at the next tighter level and reads as exactly the tokens it consumed |
| ParserProperties.BinaryLevelShaped | Parser/Parser.cs:114-168 | for every token list without parentheses whose operator tokens are spelled with their own symbols, as every lexed list is (`Pipeline.LexedOperatorsConsistent`), each of equality, comparison, term and factor builds a tree in which no operator has a looser one below it, an operator of the same level only in its left operand, and whose in-order reading is exactly the tokens consumed: precedence and left association |
| ParserProperties.LevelRestShaped | Parser/Parser.cs:118-123 | each turn of a level's operator loop keeps the tree ranked at that level and keeps its in-order reading equal to the tokens consumed so far |
| ParserProperties.ExpressionShaped | Parser/Parser.cs:89-112 | an expression without parentheses is either an assignment or a tree ranked at the equality level that reads as the tokens it consumed |
| ParserProperties.AssignmentTarget | Parser/Parser.cs:94-112 | after `=`, assignment succeeds exactly when the left side is a variable, and yields an `Assign` of the right-hand side; otherwise it fails with "Invalid assignment target" at the `=`; an error in the right-hand side comes first |
| ParserProperties.UnclosedBlockFails | Parser/Parser.cs:74-85 | a block with no `}` anywhere after it fails |
| ParserProperties.BlockAtEndFails | Parser/Parser.cs:78-83 | a block reaching the EOF fails with "Expected '}'" at the EOF |
| ParserProperties.ParseEmpty | Parser/Parser.cs:20-28 | the program is empty exactly when the first token is the EOF |
| ParserProperties.SubtractionGroupsLeft | Parser/Parser.cs:142-154 | `a - b - c` parses as `(a - b) - c` |
| ParserProperties.FactorBindsTighterThanTerm | Parser/Parser.cs:142-168 | `a + b * c` parses as `a + (b * c)` |
| ParserProperties.AssignmentGroupsRight | Parser/Parser.cs:94-112 | `a = b = 1` parses as `a = (b = 1)` |
| ParserProperties.InvalidTargetExample | Parser/Parser.cs:103-108 | `1 = x;` fails with "Invalid assignment target" at the `=` token |
| Parsing.Parser.constructor | Parser/Parser.cs:15-18 | a new parser holds the tokens and starts at position 0 |
| Parsing.Parser.Parse | Parser/Parser.cs:20-28 | the statement loop returns the grammar's program parse from the current position; the parser stays on a token of the list, and on success it stands on the EOF |
| Parsing.Parser.Declaration | Parser/Parser.cs:30-34 | agrees with the grammar's declaration rule, both in the result and in the position reached |
| Parsing.Parser.VarDeclaration | Parser/Parser.cs:36-43 | agrees with the grammar's `let` rule |
| Parsing.Parser.Statement | Parser/Parser.cs:45-51 | agrees with the grammar's statement rule |
| Parsing.Parser.PrintStatement | Parser/Parser.cs:53-58 | agrees with the grammar's `print` rule |
| Parsing.Parser.ExpressionStatement | Parser/Parser.cs:60-65 | agrees with the grammar's expression-statement rule |
| Parsing.Parser.WhileStatement | Parser/Parser.cs:67-72 | agrees with the grammar's `while` rule |
| Parsing.Parser.BlockStatement | Parser/Parser.cs:74-85 | the block loop agrees with the grammar's block rule |
| Parsing.Parser.Expression | Parser/Parser.cs:89-92 | agrees with the grammar's expression rule |
| Parsing.Parser.Assignment | Parser/Parser.cs:94-112 | agrees with the grammar's assignment rule |
| Parsing.Parser.Equality | Parser/Parser.cs:114-126 | the `==`/`!=` loop agrees with precedence level 4 |
| Parsing.Parser.Comparison | Parser/Parser.cs:128-140 | the `<`/`<=`/`>`/`>=` loop agrees with precedence level 3 |
| Parsing.Parser.Term | Parser/Parser.cs:142-154 | the `+`/`-` loop agrees with precedence level 2 |
| Parsing.Parser.Factor | Parser/Parser.cs:156-168 | the `*`/`/` loop agrees with precedence level 1 |
| Parsing.Parser.Primary | Parser/Parser.cs:170-190 | agrees with the grammar's primary rule |
| Parsing.Parser.Match | Parser/Parser.cs:194-205 | consumes a token exactly when it is not the EOF and its kind is one of those asked for |
| Parsing.Parser.Advance | Parser/Parser.cs:213-217 | moves forward one token unless at the EOF, and returns the token just passed |
| Parsing.Parser.Consume | Parser/Parser.cs:225-229 | consumes and returns a token of the expected kind, or fails with the message at the current token without moving |
| Parsing.ParseTokens | Program.cs:12-13 | constructing a parser and parsing yields exactly `Parse(tokens)` |
| ScopeChain.Define | Parser/Runtime/Environment.cs:17-20 | defining binds the name in the current scope, to the new value, whether or not it was bound there before; every other binding of that scope and every enclosing scope is unchanged |
| ScopeChain.Get | Parser/Runtime/Environment.cs:22-35 | a failed lookup is `UndefinedVariable` for the name looked up |
| ScopeChain.Assign | Parser/Runtime/Environment.cs:37-52 | a failed assignment is `UndefinedVariable` for the name; a successful one keeps the number of scopes |
| ScopeProperties.GetSpec | Parser/Runtime/Environment.cs:22-35 | lookup returns the value in the innermost scope binding the name, and fails only when no scope binds it |
| ScopeProperties.AssignSpec | Parser/Runtime/Environment.cs:37-52 | assignment fails exactly when no scope binds the name; otherwise it rebinds the name in the innermost scope binding it and changes nothing else |
| ScopeProperties.NearestIsUnique | Parser/Runtime/Environment.cs:22-35 | there is at most one innermost scope binding a name |
| ScopeProperties.GetFindsNearest | Parser/Runtime/Environment.cs:22-35 | lookup returns the value in the innermost scope binding the name |
| ScopeProperties.GetAfterDefine | Parser/Runtime/Environment.cs:17-20 | a name reads back the value it was just defined with |
| ScopeProperties.DefineIsLocal | Parser/Runtime/Environment.cs:17-20 | definition touches only the current scope and leaves the lookup of every other name unchanged |
| ScopeProperties.InnerDefinitionShadows | Parser/Runtime/Environment.cs:12-15 | a definition in a fresh inner scope shadows any outer binding and leaves the outer scopes as they were |
| ScopeProperties.AssignNeverCreates | Parser/Runtime/Environment.cs:37-52 | assignment fails exactly when lookup fails, and never adds or removes a name in any scope |
| ScopeProperties.AssignIsNearest | Parser/Runtime/Environment.cs:37-52 | assignment changes exactly the innermost binding scope, after which the name reads back the new value |
| Environments.Environment.Acyclic | Parser/Runtime/Environment.cs:10-15 | no environment is its own ancestor |
| Environments.Environment.constructor | Parser/Runtime/Environment.cs:12-15 | a new environment is an empty scope in front of its enclosing environment's scope chain |
| Environments.Environment.Define | Parser/Runtime/Environment.cs:17-20 | binds the name in this environment's own scope, as `ScopeChain.Define` says |
| Environments.Environment.Get | Parser/Runtime/Environment.cs:22-35 | the recursive lookup through enclosing environments returns what `ScopeChain.Get` returns for the chain |
| Environments.Environment.Assign | Parser/Runtime/Environment.cs:37-52 | the recursive assignment changes the chain as `ScopeChain.Assign` says, and changes nothing when it fails |
| Values.Wrap | Interpreter/Interpreter.cs:60-62 | the result is the 32-bit integer congruent to the exact value modulo 2^32, and is the exact value whenever that fits |
| Values.TruncDiv | Interpreter/Interpreter.cs:63 | the quotient leaves a remainder smaller than the divisor in magnitude and with the sign of the dividend, i.e. it rounds toward zero |
| Values.TruncDivInRange | Interpreter/Interpreter.cs:63 | the quotient of two `int`s fits in an `int` exactly unless the division is `int.MinValue / -1` |
| Semantics.Evaluate | Interpreter/Interpreter.cs:36-72 | evaluating an expression never changes the number of scopes |
| Semantics.Exec | Interpreter/Interpreter.cs:76-123 | executing a statement never changes the number of scopes |
| Semantics.Loop | Interpreter/Interpreter.cs:116-123 | a loop never changes the number of scopes |
| Semantics.ExecSeq | Interpreter/Interpreter.cs:131-134 | a statement sequence never changes the number of scopes |
| Semantics.ApplyOp | Interpreter/Interpreter.cs:58-71 | an operator application fails exactly for an unknown symbol, a division by zero and `int.MinValue / -1` |
| Semantics.IsTruthy | Interpreter/Interpreter.cs:142-147 | an `int` is true exactly when it is nonzero; its use by `if` and `while` is stated by `IfRunsOneBranch`, `WhileStopsOnZero` and `WhileRepeats` |
| SemanticsProperties.ComparisonsYieldZeroOrOne | Interpreter/Interpreter.cs:64-69 | each comparison succeeds with 1 exactly when its relation holds and 0 otherwise |
| SemanticsProperties.ArithmeticWraps | Interpreter/Interpreter.cs:60-62 | `+`, `-` and `*` always succeed with the exact result wrapped to 32 bits, and with the exact result when it fits |
| SemanticsProperties.DivisionTruncates | Interpreter/Interpreter.cs:63 | `/` fails with `DivideByZero` exactly on a zero divisor and with `ArithmeticOverflow` exactly on `int.MinValue / -1`; otherwise it truncates toward zero |
| SemanticsProperties.UnknownOperatorIff | Interpreter/Interpreter.cs:58-70 | the "Unknown operator" error arises exactly for symbols outside the ten known ones |
| SemanticsProperties.AssignYieldsValue | Interpreter/Interpreter.cs:46-51 | an assignment to a bound name yields the assigned value, which the name then reads back; to an unbound name it fails with `UndefinedVariable` and changes nothing further |
| SemanticsProperties.LeftOperandFirst | Interpreter/Interpreter.cs:55-56 | `(a = 1) - (a = 2)` in a scope where `a` is 0 yields -1 and leaves `a` at 2: the left operand and its side effect come before the right one |
| SemanticsProperties.KnownOperatorsOnly | Interpreter/Interpreter.cs:58-70 | an expression using only known operator symbols never fails with "Unknown operator" |
| SemanticsProperties.ExecFuelMonotone | Interpreter/Interpreter.cs:116-123 | once a statement completes without exhausting the loop bound, a larger bound gives the same result |
| SemanticsProperties.LoopFuelMonotone | Interpreter/Interpreter.cs:116-123 | the same for a `while` loop in progress |
| SemanticsProperties.ExecSeqFuelMonotone | Interpreter/Interpreter.cs:131-134 | the same for a statement sequence |
| SemanticsProperties.EvaluateKeepsShape | Interpreter/Interpreter.cs:36-72 | evaluating an expression changes values only: every scope binds the same names afterwards |
| SemanticsProperties.ExecExtends | Interpreter/Interpreter.cs:76-123 | a statement adds names only to the current scope, never removes output, and adds only printed lines |
| SemanticsProperties.BlockExtends | Interpreter/Interpreter.cs:96-100 | after a block its inner scope is gone: every enclosing scope binds the same names as before, and output only grows |
| SemanticsProperties.LoopExtends | Interpreter/Interpreter.cs:116-123 | the same for a `while` loop |
| SemanticsProperties.ExecSeqExtends | Interpreter/Interpreter.cs:131-134 | the same for a statement sequence |
| SemanticsProperties.IfRunsOneBranch | Interpreter/Interpreter.cs:102-114 | the condition is evaluated once; a nonzero value runs the then-branch, zero runs the else-branch if any and otherwise does nothing |
| SemanticsProperties.WhileStopsOnZero | Interpreter/Interpreter.cs:116-123 | a `while` whose condition is 0 completes normally after evaluating the condition |
| SemanticsProperties.WhileRepeats | Interpreter/Interpreter.cs:116-123 | a true condition and a normal body run mean the loop continues from the state the body left |
| SemanticsProperties.WhileIsLoop | Interpreter/Interpreter.cs:116-123 | a `while` statement is its loop with the whole bound still available |
| SemanticsProperties.LoopIterates | Interpreter/Interpreter.cs:116-123 | one iteration of a loop consumes one unit of the bound and continues from the body's final state |
| SemanticsProperties.LoopExits | Interpreter/Interpreter.cs:116-123 | a loop whose condition is 0 stops normally, whatever bound remains |
| SemanticsProperties.ExecSeqSplit | Interpreter/Interpreter.cs:131-134 | running a sequence is running a prefix and then, if it completed normally, the rest; otherwise it is the prefix's result |
| SemanticsProperties.InterpretStopsAtFirstError | Interpreter/Interpreter.cs:14-27 | the first failing top-level statement ends the program, and its error is reported as the last output line |
| SemanticsProperties.InterpretOutput | Interpreter/Interpreter.cs:14-27 | a run keeps the output already printed and adds printed lines only, followed by exactly one error line when it fails |
| Semantics.Interpret | Interpreter/Interpreter.cs:14-27 | a run ends as the statement sequence ends and keeps its output; a runtime error adds exactly one line after it, the error's report |
| SemanticsProperties.ExecKnownOperatorsOnly | Interpreter/Interpreter.cs:58-70 | a statement that program text can produce never fails with "Unknown operator" |
| SemanticsProperties.LoopKnownOperatorsOnly | Interpreter/Interpreter.cs:116-123 | the same for a loop whose condition and body program text can produce |
| SemanticsProperties.ExecSeqKnownOperatorsOnly | Interpreter/Interpreter.cs:131-134 | the same for a sequence of such statements |
| Interpreting.Interpreter.constructor | Interpreter/Interpreter.cs:12 | a new interpreter has one empty global scope and no output |
| Interpreting.Interpreter.Interpret | Interpreter/Interpreter.cs:14-27 | running the statements changes the environment and output exactly as `Semantics.Interpret` says, and leaves the global environment current |
| Interpreting.Interpreter.Execute | Interpreter/Interpreter.cs:29-32 | executing a statement computes `Exec` on the interpreter's state |
| Interpreting.Interpreter.Evaluate | Interpreter/Interpreter.cs:48-56 | evaluating an expression (the `Accept(this)` calls on expressions at lines 48, 55-56, 104 and 118) computes `Semantics.Evaluate` on the environment's scope chain |
| Interpreting.Interpreter.VisitLiteralExpr | Interpreter/Interpreter.cs:36-39 | a literal yields its value |
| Interpreting.Interpreter.VisitVariableExpr | Interpreter/Interpreter.cs:41-44 | a variable yields the scope chain's lookup of its name |
| Interpreting.Interpreter.VisitAssignExpr | Interpreter/Interpreter.cs:46-51 | an assignment computes `Semantics.Evaluate` of the `Assign` node |
| Interpreting.Interpreter.VisitBinaryExpr | Interpreter/Interpreter.cs:53-72 | a binary expression computes `Semantics.Evaluate` of the `Binary` node |
| Interpreting.Interpreter.VisitExprStmt | Interpreter/Interpreter.cs:76-80 | an expression statement computes `Exec` |
| Interpreting.Interpreter.VisitPrintStmt | Interpreter/Interpreter.cs:82-87 | `print` computes `Exec`: it appends the value to the output unless evaluation fails |
| Interpreting.Interpreter.VisitVarStmt | Interpreter/Interpreter.cs:89-94 | `let` computes `Exec` |
| Interpreting.Interpreter.VisitBlockStmt | Interpreter/Interpreter.cs:96-100 | a block computes `Exec` and leaves the same environment current |
| Interpreting.Interpreter.VisitIfStmt | Interpreter/Interpreter.cs:102-114 | `if` computes `Exec` |
| Interpreting.Interpreter.VisitWhileStmt | Interpreter/Interpreter.cs:116-123 | the `while` loop computes `Exec` of the `While` node |
| Interpreting.Interpreter.ExecuteBlock | Interpreter/Interpreter.cs:125-140 | the statements run against the new environment, and afterwards the previous environment is current again, whether they completed or failed |
| Interpreting.Interpreter.ExecuteStatements | Interpreter/Interpreter.cs:131-134 | the statement loop computes `ExecSeq` and stops at the first statement that does not complete normally |
| Programs.PrecedenceProgram | Interpreter/Interpreter.cs:53-72 | the statement tree of `let x = 1 + 2 * 3; print x;` prints 7 |
| Programs.DivisionProgram | Interpreter/Interpreter.cs:63 | the statement tree of `let a = 7; let b = 2; print a / b;` prints 3 |
| Programs.DivisionByZeroProgram | Interpreter/Interpreter.cs:14-27 | the statement tree of `print 1 / 0; print 2;` reports the division by zero and prints nothing else |
| Programs.AssignInBlock | Interpreter/Interpreter.cs:125-140 | assigning to an outer variable inside a block changes the outer variable once the block is left |
| Programs.AssignThroughBlockProgram | Parser/Runtime/Environment.cs:37-52 | the statement tree of `let x = 1; { x = 2; } print x;` prints 2 |
| Programs.ShadowingProgram | Interpreter/Interpreter.cs:96-100 | the statement tree of `let x = 1; { let x = 2; } print x;` prints 1 |
| Programs.CountingLoop | Interpreter/Interpreter.cs:116-123 | `while (i < limit) { i = i + 1; }` from any 32-bit `i` up to `limit`, negative ones included, stops with `i == limit` |
| Programs.CountingLoopProgram | Interpreter/Interpreter.cs:116-123 | the statement tree of `let i = 0; while (i < limit) { i = i + 1; } print i;` prints `limit` for any non-negative `limit` |
| Programs.UndefinedVariableProgram | Parser/Runtime/Environment.cs:34 | the statement tree of `print y;` with no `y` reports an undefined variable `y` |
| Pipeline.OperatorTokenIsKnown | Lexer/Lexer.cs:51-68 | every operator token the lexer produces carries one of the ten symbols the interpreter knows |
| Pipeline.ScannedTokensAreParsable | Parser/Parser.cs:219-221 | the lexer's output ends in the EOF sentinel the parser stops at, gives every number a value, and uses only known operator symbols |
| Pipeline.LexedTokensAreParsable | Program.cs:9-13 | every successful lex of a source is a valid parser input whose operator symbols are all known to the interpreter |
| Pipeline.RunNeverHitsUnknownOperator | Program.cs:7-16 | a program lexed and parsed from source text never fails at run time with "Unknown operator" |
| Pipeline.OperatorTokenLevel | Lexer/Lexer.cs:51-68 | every operator token the lexer can produce is spelled with a symbol of its own precedence level |
| Pipeline.LexedOperatorsConsistent | Program.cs:9-13 | the tokens of every successful lex give each operator the level of its symbol, so the precedence lemmas apply to lexed source |
| Pipeline.LexedExpressionShaped | Parser/Parser.cs:114-168 | in lexed source, an expression without parentheses that is not an assignment parses with the precedence and left association of its operators and reads as exactly the tokens it consumed |
| Pipeline.Run | Program.cs:7-16 | a run fails in the lexer exactly when lexing fails, with the lexer's error; a parse failure carries the parser's own error, which names a token of the lexed input; a program runs exactly when lexing and parsing both succeed |

## Left out

- Program.cs reads `program.toy` from disk. That file I/O is not modelled: `Pipeline.Run` takes the source text as a parameter.
- Console output becomes a sequence of `OutputLine`s: `Printed(value)` for `print`, and `RuntimeErrorLine(error)` for the report written by `Interpret`.
- Exception messages become structured values:
  - lexer errors become `LexError`;
  - parser errors become a `ParseError` holding the line, the lexeme and a `ParseMessage`;
  - runtime errors become `RuntimeError`.

  The strings `[Line L] Error: …`, `[Line L] Error at '…': …` and `Runtime error: …` are not built.
- Lexer and parser exceptions escape the entry point uncaught. They become the `LexFailed` and `ParseFailed` results of `Pipeline.Run`, and no statement runs.
- `char.IsDigit`, `char.IsLetter` and `char.IsLetterOrDigit` accept all Unicode digits and letters in .NET. The model accepts ASCII digits and letters only, because Dafny has no Unicode character tables.
- `while` has no iteration cap in the source. Each model `while` may iterate at most `fuel` times and otherwise ends the run with `OutOfFuel`. A non-terminating program therefore does not run forever in the model. `ExecFuelMonotone` shows the bound never changes a result it allows.
- Deep recursion in the parser and evaluator can overflow the .NET stack. This is not modelled.
- `Accept`/visitor double dispatch in Expr.cs and Stmt.cs is replaced by `match` over the `Expr` and `Stmt` datatypes.
- AST node fields are public and mutable in C#. No code mutates them, so they are immutable datatype fields here.
- Values are `object` in the source, but every value is an `int`. The model stores `Int32` directly, so the `(int)` casts and the non-`int` branch of `IsTruthy` cannot occur.
- The `Token` class's source file is not part of this model. Its four members are modelled as `Tokens.Token(kind, lexeme, literal, line)` from how the lexer and parser use them.
- The parser indexes past the end of a token list that does not end in EOF, and `Literal!` assumes every number token has a value. The model's parser therefore requires `Grammar.WellFormed` tokens. `Pipeline.LexedTokensAreParsable` proves the lexer always delivers them.
- Lexing.Lexer.Peek: its contract describes only a non-NUL result, because a NUL in the source and the end of the source both read as `'\0'`.
- ParserProperties.BinaryLevelShaped: stated for token ranges without `(`. A parenthesised group parses to the tree inside it, with no node of its own, so a ranking across parentheses is not stated.
- The environment state that a runtime error leaves behind is kept in the model. The source leaves it in the interpreter too, but never uses it again after `Interpret` returns.
