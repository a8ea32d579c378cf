# A Dafny model of the JavaScript-to-Clarity tree printer

`transpiler.py` turns a parsed JavaScript syntax tree into Clarity-style
S-expression text. It has two parts:

- `indent_lines` puts N blanks in front of every line of a text.
- `traverse_ast` dispatches on a node's `"type"` tag. Each branch renders
  the node's children recursively and splices their text into an f-string.

This project models both as pure Dafny functions and proves properties of
them. The modules are:

| module | file | contents |
|---|---|---|
| `Wrappers` | wrappers.dfy | `Option` |
| `Text` | text.dfy | `str.split("\n")`, `str.join`, `" " * n` and `IndentLines`, with split/join round trips |
| `Decimal` | decimal.dfy | Python's `str()` of an integer and a reader that takes it back |
| `Ast` | ast.dfy | the node tree: one constructor per tag with a branch, plus `Program` and `Unsupported(tag)` for every tag without one |
| `Handlers` | handlers.dfy | each branch as a text builder over its children's already-rendered text |
| `Transpiler` | transpiler.dfy | `Render`, the dispatcher, and `Renderable`, which excludes the trees on which a branch of the Python raises an exception |
| `HandlerLaws` | handler_laws.dfy | the builders stated against independent descriptions: the `(HEAD ARGS…)` layout, the line structure, and how the text grows when a child is added |
| `RenderLaws` | render_laws.dfy | whole-node facts: which tags give text, how the list branches assemble their children, and the loops of lines 64-76 and 136-146 as written |
| `Literals` | literals.dfy | literal texts read back to the same literal node |
| `Parens` and `Balance` | parens.dfy, balance.dfy | parenthesis depth; every rendered tree is balanced when its names carry no parentheses |

The Python behaviour is modelled as follows:

- **No result.** `Render(n)` is `None` where the Python returns nothing:
  - a `Program`, whose branch walks its statements and returns nothing;
  - every tag without a branch. This includes `Identifier`, `Literal` and
    `BlockStatement`.
- **A child with no result.** A parent splices the child's result into an
  f-string, so `None` becomes the word `None` in the text. `Handlers.Show`
  models this.
- **Inputs on which a branch raises.** `Transpiler.Renderable` excludes them:
  - `", ".join` at lines 68 and 132 meets a `None`, so every call argument
    and array element must render to text;
  - `indent_lines(None, 2)` at line 27, so a function body must render to
    text;
  - a `const` declaration with no declarator reads an unbound local at
    line 50, so it needs at least one declarator.
- **The conditional's alternate** is an `Option<Node>`. `None` stands for a
  node without the `"alternate"` key.

A Clarity generator might be expected to do several things this file does
not do. The model follows the code:

| one might expect | this file instead |
|---|---|
| `(ok X)` / `(err …)` wrapping of returns | writes `(return X)` |
| `&&`→`and`, `\|\|`→`or` | copies logical operators unchanged, infix |
| lower-case `true`/`false` | writes Python's `True`/`False` |
| checking the principal address's shape | accepts any address |
| one form for every constant declarator | renders only the last `const` declarator |
| `(var-set! …)` for an assignment | writes `(= NAME VALUE)` |
| a reported error for an unknown tag | prints a message and returns `None` |

## Model

| member | source | states |
|---|---|---|
| Text.IndentLines | transpiler.py:3-6 | `indent_lines`: split at `\n`, put n blanks before each piece, join with `\n`; its meaning is stated by the three lemmas below |
| Text.IndentLinesLines | transpiler.py:3-6 | the lines of the indented text are the input's lines, each with exactly n blanks in front; the line count is unchanged |
| Text.IndentLinesZero | transpiler.py:3-6 | indenting by zero gives the input back |
| Text.IndentLinesTwice | transpiler.py:3-6 | indenting by a and then by b is indenting by a + b |
| Text.JoinSplit | transpiler.py:5-6 | joining the pieces of a split with the separator gives the text back |
| Text.SplitJoin | transpiler.py:5-6 | splitting a join of separator-free pieces gives the pieces back |
| Parens.IndentLinesWalk | transpiler.py:3-6 | indenting adds no parenthesis: every depth walk over the text is unchanged |
| Decimal.IntToDecimal | transpiler.py:178-186 | `str()` of an integer: digits only for v >= 0, and a `-` followed by digits for v < 0 |
| Decimal.IntRoundTrip | transpiler.py:178-186 | the reader takes the decimal text of every integer back to that integer |
| Decimal.IntToDecimalInjective | transpiler.py:178-186 | distinct integers have distinct texts |
| Transpiler.Renderable | transpiler.py:27-149 | the trees on which no branch raises: a function body that renders to text (line 27 indents the result), a `const` declaration with a declarator (line 50), call arguments and array elements that render to text (`str.join` at lines 68 and 132); declarator initialisers, return arguments and other children are nodes, never missing (lines 41, 45, 149) |
| Handlers.Show | transpiler.py:58 | an f-string splices a child's text as is and a child with no result as the word `None` |
| Transpiler.Render | transpiler.py:17-202 | the dispatcher gives no text exactly for a Program and for a tag without a branch |
| RenderLaws.DispatchByTag | transpiler.py:17-202 | a node renders to text exactly when its tag is one of the nineteen tags whose branch returns |
| Handlers.DeclLoop | transpiler.py:35-47 | after the declarator loop a constant form exists exactly when one existed before or the kind is `const` and a declarator was visited |
| HandlerLaws.DeclLoopResult | transpiler.py:34-47 | the loop in one step: a non-`const` kind appends one `(define-KIND …)` per declarator in order; `const` keeps only the last declarator's form |
| HandlerLaws.DeclarationLines | transpiler.py:33-52 | a non-`const` declaration is its forms joined by newlines; no declarator gives `""`; the lines of the text are the forms |
| HandlerLaws.ConstantKeepsLast | transpiler.py:39-50 | a `const` declaration is the `(define-constant …)` of its last declarator alone |
| HandlerLaws.DeclarationAppend | transpiler.py:33-52 | a non-`const` declarator list split in two renders as the two halves' texts on consecutive lines |
| RenderLaws.ConstantDeclarationKeepsLast | transpiler.py:33-52 | a whole `const` declaration node renders the same as a node holding only its last declarator |
| RenderLaws.MutableDeclarationForms | transpiler.py:43-52 | a whole non-`const` declaration node renders `(define-KIND NAME VALUE)` per declarator, in order, one per line |
| HandlerLaws.FunctionLines | transpiler.py:21-31 | a function's lines are its signature, then every body line indented by two, then `)` |
| HandlerLaws.SignatureParameters | transpiler.py:26 | the parameters split back out of the signature in declared order; no parameters leave `(define-public (NAME )` |
| HandlerLaws.CallIsForm | transpiler.py:64-68 | a call is the form `(CALLEE ARGS)` with the arguments joined by `, ` |
| HandlerLaws.CallArgumentAppended | transpiler.py:64-68 | one more argument goes at the end after `, `, so arguments appear left to right |
| RenderLaws.TraverseCall | transpiler.py:64-76 | the loop that joins the rendered arguments, followed by the second pass over them, yields the dispatcher's text: the second pass changes nothing |
| RenderLaws.ArrayIsListCall | transpiler.py:128-134 | an array literal renders exactly as a call of `list` on the same elements |
| HandlerLaws.TuplePairAppended | transpiler.py:136-146 | one more property goes at the end of the tuple after `, `, so properties appear left to right |
| RenderLaws.TraverseObject | transpiler.py:136-146 | the loop that collects `KEY VALUE` pairs yields the dispatcher's text |
| HandlerLaws.IfAlternateInserted | transpiler.py:79-97 | with no alternate the text is `(if TEST\nCONSEQUENT)`; an alternate inserts `\n(else ALT)` just before the last `)` |
| HandlerLaws.SingleForms | transpiler.py:54-176 | assignment, binary/logical, unary, return, member, print, var-set and var-get texts as `(HEAD ARGS…)` forms: infix with the operator unchanged, the unary operator glued to its operand |
| RenderLaws.BinaryLogicalAlike | transpiler.py:99-126 | binary and logical nodes with the same fields render alike: no operator is translated |
| Literals.LiteralRoundTrip | transpiler.py:178-196 | the text of every Int, UInt, Bool and Principal literal reads back to that literal; Int and UInt of one value stay apart |
| Literals.NegatedLiteral | transpiler.py:109-116 | unary minus on a positive Int renders as the negative Int's text in parentheses |
| Balance.RenderBalanced | transpiler.py:17-196 | the text of every renderable tree whose names, operators, kinds and addresses hold no parentheses is parenthesis-balanced |
| Balance.FunctionBalanced | transpiler.py:21-31 | a function with a balanced body has a balanced text |
| Balance.DeclarationBalanced | transpiler.py:33-52 | declarations of balanced values are balanced |
| Balance.IfBalanced | transpiler.py:79-97 | conditionals of balanced parts are balanced, with or without an alternate |

## Left out

- The parse by `esprima.parseScript` (transpiler.py lines 1 and 10). It is
  a foreign library; the model takes the tree as given.
- `transpile_js_to_clarity` beyond its call of `traverse_ast`, and `main`
  with its reading of `my_script.js` (lines 8-15 and 204-213). These are
  parsing and file I/O.
- The diagnostic `print` in the final `else` (line 202). Only its result,
  `None`, is modelled.
- Floating-point literal values. Int and UInt carry integers, and `str()` of
  an integer is modelled for every integer.
- Python's limit on integer-to-text conversion. From Python 3.11 on, the
  f-strings at lines 180 and 185 raise ValueError for an integer of more
  than 4300 digits; `Decimal.IntToDecimal` gives the digits of every integer.
- Python's recursion limit. A tree nested deeper than it (a left-deep chain
  of about a thousand binary expressions, say) makes `traverse_ast` raise
  RecursionError; `Transpiler.Render` gives text for every `Renderable` tree
  whatever its depth.
- An `"alternate"` key holding `null`. The Python would call `traverse_ast`
  on it and fail; the model has only "present" and "absent".
- The assignment operator (`=`, `+=`, …). Line 58 does not read it, so the
  node does not carry it.
- The node's other dictionary keys (source positions and the like). No
  branch reads them.
- Balance.RenderBalanced: assumes that names, parameters, operators, kinds
  and principal addresses hold no parentheses. The Python copies these
  verbatim, so with parentheses in them the output need not be balanced.
