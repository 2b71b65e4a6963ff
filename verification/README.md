# Verified model of utils_go

This project models the algorithmic core of the Go module `utils_go` in Dafny
and proves what its code and documentation promise. Code that overwrites
objects, arrays or buffers is modelled by classes, arrays and methods proved
against specification functions; the properties are then lemmas about those
functions. `dafny verify dfyconfig.toml` checks everything.

**The ABNF engine and its rewriter** (`pkg/abnf`, `pkg/abnf/minify`,
`pkg/abnf/list.go`, `pkg/abnf/lint/analyze.go`). `Abnf` holds grammar trees,
`Denotation` the derivation relation of RFC 5234 sections 3 and 4 as a least
fixed point over rule unfoldings, `Solver` the search and `Matcher` and `Parser`
its loops. `Terminals` and `Utf8` say what terminals match in terms of
characters, bytes and numbers, and `ParseTrees` what a parse tree is, from the
grammar and the input alone. The search is sound and complete whenever it
answers: its ends are the derivable ones, and its paths are the parse trees
(`ParseTreesFound`). It answers on every input for a *guarded* grammar: one that
ranks its rules so that every way around a recursion consumes input, and repeats
without bound only what cannot match empty. `SolverLoops` says exactly when an
unbounded repetition runs forever. `Simplifier` is the rewriting as functions on
trees, `SimplifyInPlace` the program's form of it, overwriting the nodes of
`TreeNodes`. Rewriting preserves every language (`SimplifierLanguage`), shortens
the text or changes nothing (`SimplifierShrinks`), settles after two passes
(`SimplifierSettles`) in a form in which nothing is left to simplify
(`NormalForm`, with `LiteralMeaning` on when one literal can stand for two), and
keeps the tree one that ABNF can spell under an exact condition
(`SimplifierKeeps`). `Minifier` and `MinifierLaws` put expansion, simplification
and the writer together. `TextDerivable` derives the text that is written in the
grammar of ABNF (`Rules`), `MarkScan`, `DerivedScan` and `WrittenScan` show
which texts that grammar does not derive, `OneReading` reads written text back,
so no two grammars are written the same, and `RepeatedLists` what is read
instead of a repeated list. `RulesGuard` shows the grammar guarded, and
`AbnfParses` concludes when the parser reads what is written. `Reachability` is
the linter's search for dead rules.

**The QR encoder** (`pkg/encoding/qr`, ISO/IEC 18004). `GaloisField` and
`ReedSolomon` build the field and its codes, `BlockDistance` their minimum
distance, `ByteMode` and `Interleaving` the codewords, `Zigzag`, `Patterns` and
`Symbols` the modules, `Capacity` the room for them, and `Drawing` the encoder
that draws and masks in place. The main result is end to end: a reader gets back
the data. `Layout`, `CodewordPlaces` and `SymbolNumbers` say what each module of
the symbol shows, where each codeword and bit stands, and which numbers the
tables and check bits come to, by formulas and by the standard's own lists.

**The CBOR codec** (`pkg/cbor/cbor.go`, RFC 8949). `CborValues` holds Go values
with the types of their integers and keys, `CborItems` data items and their
bytes, and `CborOrders` what can be written for a value in the orders in which
the entries of its maps are met. `CborEncoder` is the encoder, `CborDecoding`
the strict decoder with its offset, depth and allocations, `CborLaws` the round
trips. `CborBytes` says what is written byte by byte, and `CborAccepts` that the
decoder accepts exactly the encodings of `CborGrammar`.

**The DevTools connection** (`pkg/cdp`). `Connection` holds the critical
sections of the shared state, `Multiplexer` interleaves callers and reader in
every order, and `MultiplexerCauses` says what each outcome was brought about
by. `WebSocketFrames`, `WebSocketMessages` and `WebSocket` are the framing and
fragmentation of RFC 6455 sections 5.2 to 5.4, and `WebSocketWire` the bytes and
bits that frames are.

**Smaller algorithms.** `EditDistance` (the two-row Levenshtein loop),
`Components`, `ComponentLaws`, `ComponentFields`, `ComponentGroups` and
`ComponentOrders` (merging SBOM components, and when the order they come in
matters, with `Permutations`), `LineEndings` (the linter's map from normalized
offsets back to the definition).

## Where the code and its promises differ

- A range over a single surrogate matches nothing, and the series it is
  rewritten to matches U+FFFD. `NumValPreservedIff` shows that this is the only
  num-val rewrite that changes a language.
- Minification promises an equivalent definition. Where lists are kept, a group
  that holds only a list and is repeated loses its brackets. Repeated n times, its
  count runs into that of the list, and the definition written means another:
  `MinifiedMeansAnother` shows it of a = n(#e), and `MinifiedTextReadsAs` what
  is read in general. Repeated between two different counts, nothing is read, and
  minification fails: `MinifiedTextParses` says exactly when. `StaysOkIff` ties
  both to a condition on the rules before minification.
- The expansion of a bounded list whose maximum is zero allows one element
  where none is permitted. `BoundedExactIff` gives the exact condition.
- A comment says that a second simplification pass normally only confirms the
  first. `OnePassIsNotEnough` shows one that does more, and `TwoPassesSettle`
  that a third never does.
- Of the two bytes added to an unterminated last line, the second maps to the
  last byte rather than to the end (`EndReturns`); the map is in order exactly
  where nothing is added at the end (`OrderIsKeptIff`).
- Encoding CBOR is promised to be deterministic. A map with keys int64(1) and
  uint64(1) holds two entries under keys that are written the same, and sorting
  leaves them in the order in which the map is met (`EitherOneFirst`).
  `BytesAreDeterminedIff` says exactly when the bytes are determined.
- Decoding CBOR yields an `int64` where an `uint64` below 2^63 was encoded, so
  the round trip is up to that change of type; larger ones are refused, and so
  are maps with keys other than integers and text, which the encoder writes
  (`RoundTripIff`).
- Merging components is said not to depend on the order they come in. Of two
  that share a bom-ref the first one's licences stand (`LicensesDependOnOrder`),
  and its scope where both are unknown; properties, and components without a
  bom-ref, keep the order they come in. `OrderDoesNotMatterIff`, with
  `SinglyOrderFreeIff`, says exactly when the order does not matter.

## Model

| member | source | states |
|---|---|---|
| Parser.Parse | pkg/abnf/parse.go:85-104 | Returns on every input for a guarded grammar; the root is missing exactly when it is looked up in vain; otherwise there is a solution exactly when the root derives the whole input, and the solutions are all the parse trees of the root over the whole input and nothing else: each part for a rulename bears that name and is otherwise a tree of its rule, and no other part bears a name. |
| Parser.ParsedExact | pkg/abnf/parse.go:85-104 | The same for any grammar, guarded or not, whenever Parse returns: no solution is wrong, and none is missing. |
| Parser.ParseTerminates | pkg/abnf/parse.go:85-286 | For a guarded grammar the search answers within a depth that the guard and the length of the input give. |
| Matcher.MatchAlternation | pkg/abnf/parse.go:106-156 | The nested loops compute the paths of the search, alternative by alternative. |
| Matcher.MatchConcatenation | pkg/abnf/parse.go:109-152 | The loop over repetitions multiplies the paths so far with those of the next repetition, and stops where none is left. |
| Matcher.MatchRepetition | pkg/abnf/parse.go:158-207 | The loop over iterations collects exactly the permitted numbers of them, bounded or not. |
| Matcher.MatchElement | pkg/abnf/parse.go:209-286 | Every kind of element: what is returned is exactly what the search finds, which the rows on parse trees below tie to the grammar; numerals must be valid. |
| SolverDepth.RuleExact | pkg/abnf/parse.go:106-286 | Soundness and completeness: where a search for a rule answers, its paths end exactly where the grammar derives an end from that start. |
| ParseTreesFound.ElementExactly | pkg/abnf/parse.go:206-286 | Wherever the search answers, a path is found for an element if and only if it is a parse tree of it that starts there: a rulename has a tree of its rule that bears the name, and nothing else bears one. |
| ParseTreesFound.AlternationExactly | pkg/abnf/parse.go:106-200 | The same for an alternation: adjoining trees of all repetitions of one concatenation, each made of as many adjoining trees of its element as its counts allow. |
| SolverExact.AlternationExact | pkg/abnf/parse.go:106-200 | At every depth of rule unfolding, the end offsets found for an alternation are those of its derivations at that depth. |
| SolverExact.CollectedExact | pkg/abnf/parse.go:175-200 | Counting iterations from the minimum on gives every permitted number of them and no other. |
| SolverExact.PruningIsExact | pkg/abnf/parse.go:290-313 | Where the look-ahead gives up on a further iteration, the element has no match there: pruning loses nothing. |
| SolverShape.AlternationFrom | pkg/abnf/parse.go:13-25 | Every path starts where the search did, ends within the input, and its parts follow one another without gaps up to its end, at every level. |
| SolverLoops.UnboundedAnswersIff | pkg/abnf/parse.go:158-200 | An unbounded repetition of an element that is itself answered terminates exactly when no offset reachable by iterating lets the element match empty. |
| SolverGuard.AlternationTerminates | pkg/abnf/parse.go:106-286 | What is guarded is answered: recursion through rules either drops in rank or follows consumed input. |
| LanguageEquations.LanguageEquation | pkg/abnf/parse.go:209-221 | The derivation relation is a fixed point: a rule derives exactly what its alternation matches over the languages of all rules, and an undefined name nothing. |
| Abnf.LookupIs | pkg/abnf/grammar.go:49-55 | A name means the last rule of the grammar that has it but for the case of letters, or else the last such core rule; it means nothing exactly where there is neither. |
| Terminals.SameNameIff | pkg/abnf/grammar.go:49-55 | Names are looked up alike if and only if they differ in nothing but the case of ASCII letters. |
| Rewriting.EquivalentLanguages | pkg/abnf/parse.go:209-221 | Grammars whose rules mean the same one by one, whatever the rules they refer to match, have the same languages, through mutual recursion. |
| Utf8.DecodeEncoded | pkg/abnf/parse.go:255-278 | A scalar value is read back from its encoding, whatever follows it. |
| Utf8.EncodeDecoded | pkg/abnf/parse.go:255-278 | What decoding returns without failing is a scalar value, and the bytes it read are its encoding. |
| Utf8.RuneDecodesIff | pkg/abnf/parse.go:255-267 | Decoding yields a code point and a width if and only if the input begins with the one to four bytes that share out the bits of that scalar value as section 3 of RFC 3629 lays down, in no more bytes than it takes. |
| Terminals.CharValIff | pkg/abnf/parse.go:237-251 | A char-val matches a stretch of the input if and only if each byte is its character, or, in an insensitive one, the same letter in the other case. |
| Terminals.RangeIff | pkg/abnf/parse.go:255-267 | A range matches exactly the bytes that spell one scalar value within its bounds. |
| Terminals.NumeralIff | pkg/abnf/elements.go:237-256 | A numeral is valid exactly if it has digits, all of its base, that stand for a code point, the first digit counting the most; and that is its value. |
| Abnf.ParseNumVal | pkg/abnf/elements.go:237-256 | A numeral in base 2, 10 or 16 stands for a code point no greater than U+10FFFF, or is invalid. |
| SimplifierLanguage.LanguagePreserved | pkg/abnf/minify/simplify.go:14-262 | One pass with any set of transforms leaves the language of every rule unchanged, on every input. With the num-val transform, no range may be over a single surrogate. |
| SimplifierLanguage.NumValPreservedIff | pkg/abnf/minify/simplify.go:100-144 | Rewriting a num-val keeps what it matches on every input if and only if it is not a range over a single surrogate, for which the range matches nothing and the series U+FFFD. |
| SimplifierLanguage.MergedElementComposes | pkg/abnf/minify/simplify.go:179-219 | A merged literal matches exactly what the two match one after the other, case folding included. |
| LiteralMeaning.CharValsJoinIff | pkg/abnf/minify/simplify.go:179-219 | Two char-vals that ABNF can spell are joined if and only if some char-val matches what they match one after the other, on every input. |
| LiteralMeaning.NumValsJoinIff | pkg/abnf/minify/simplify.go:179-219 | Two num-vals are joined if and only if both are series and their bases are the same but for case. |
| LiteralMeaning.SeriesKeptIff | pkg/abnf/minify/simplify.go:100-144 | A valid series is kept if and only if no char-val written in fewer characters matches the same on every input. |
| LiteralMeaning.RangeKeptIff | pkg/abnf/minify/simplify.go:100-144 | A valid range is kept if and only if its values differ. |
| NormalForm.TwoPassesAreNormal | pkg/abnf/minify/simplify.go:24-219 | Whatever the tree and the transforms, two passes leave, as far as the transforms go, no two adjacent unrepeated literals that one literal can stand for, no group whose parentheses are not needed, no range over one value and no series that a shorter char-val can stand for. The form is said of the tree and of what its literals match. |
| NormalForm.LeftAloneIff | pkg/abnf/minify/simplify.go:24-219 | A pass leaves a tree that ABNF can spell as it is if and only if it has that form. |
| NormalForm.PassedIsNormal | pkg/abnf/minify/transform.go:53-64 | The same as the first for all rules: two passes leave nothing to simplify. |
| SimplifierLanguage.AlternationPreserved | pkg/abnf/minify/simplify.go:24-95 | The whole bottom-up rewrite of a tree preserves its relation over any meaning of the rulenames. |
| SimplifierShrinks.SameTextSameGrammar | pkg/abnf/minify/transform.go:53-64 | A pass that leaves the text as it was has changed no tree: leaving the loop early means a fixed point. |
| SimplifierShrinks.RulesShrink | pkg/abnf/minify/simplify.go:14-262 | A pass leaves the rules identical or makes their text strictly shorter. |
| SimplifierSettles.TwoPassesSettle | pkg/abnf/minify/simplify.go:24-219 | A third pass never changes anything, with any set of transforms: the bound of eight passes is never the reason to stop. |
| SimplifierSettles.FurtherPasses | pkg/abnf/minify/transform.go:53-64 | Any number of passes from two on gives what two give. |
| SimplifierSettles.OnePassIsNotEnough | pkg/abnf/minify/simplify.go:100-145 | Two are needed: a range over the hyphen becomes a series and only then a string. |
| SimplifierKeeps.StaysOkIff | pkg/abnf/minify/simplify.go:72-96 | A pass leaves a tree that ABNF can spell with no list repeated in a given way if and only if no group that comes down to a list was repeated in that way; the condition holds of the tree before a pass exactly when it holds after, so it is the same for any number of passes. |
| SimplifierKeeps.StaysOkWithoutGroups | pkg/abnf/minify/simplify.go:100-262 | A pass that leaves groups alone keeps a tree that ABNF can spell one that it can. |
| SimplifierKeeps.StaysSurrogateFree | pkg/abnf/minify/simplify.go:100-145 | A pass brings no range over a surrogate with it, so a further pass preserves languages as well. |
| SimplifyInPlace.SimplifyGrammar | pkg/abnf/minify/simplify.go:14-22 | Overwriting the nodes of every rule leaves trees that stand for the simplified rules, without sharing nodes and without touching others. |
| SimplifyInPlace.SimplifyAlternation | pkg/abnf/minify/simplify.go:24-44 | In place: the alternation node comes to hold the simplified alternatives, groups spliced in. |
| SimplifyInPlace.SimplifyConcatenation | pkg/abnf/minify/simplify.go:46-70 | In place: repetitions are simplified, groups spliced in, and literals merged. |
| SimplifyInPlace.SimplifyRepetition | pkg/abnf/minify/simplify.go:72-95 | In place: the element is replaced by what it simplifies to; the counts stay. |
| SimplifyInPlace.MergeLiterals | pkg/abnf/minify/simplify.go:149-175 | The loop joins each literal with the last one where it can, which CharValsJoinIff and NumValsJoinIff pin, in new nodes, and leaves the old nodes alone. |
| Minifier.SimplifyToFixedPoint | pkg/abnf/minify/transform.go:53-64 | The loop always ends with rules that no pass changes; they are those of two passes, and have the normal form above. |
| Minifier.RenderRule | pkg/abnf/minify/transform.go:37-48 | The text of the settled rule, computed on a copy; the rule itself is not modified. |
| Minifier.MakeDefinition | pkg/abnf/minify/minify.go:83-97 | The text is that of the rules expanded and simplified as the options ask, the grammar is left holding them, and with simplification they have the normal form above. |
| MinifierLaws.MinifiedMeansTheSame | pkg/abnf/minify/minify.go:83-97 | Whatever the options, every rule matches what it matched, on every input. Lists carry the expansions that parsing gives them, and there is no range over a surrogate where simplification meets it. |
| MinifierLaws.MinifiedTextParses | pkg/abnf/minify/minify.go:60-90 | The text that is written for parsed rules is ASCII, and the parser finds a parse of it if and only if, where lists are kept, no group that holds only a list is repeated between two different counts; otherwise verification fails. |
| MinifierLaws.MinifiedIsOkIff | pkg/abnf/minify/minify.go:60-90 | What minification leaves has no list repeated in a given way if and only if, where lists are kept, no group that holds only a list was repeated in that way. |
| RepeatedLists.MinifiedTextReadsAs | pkg/abnf/minify/minify.go:164-209 | Where groups that hold only a list are repeated by one count that is not zero, the text that is written is that of well-formed rules without repeated lists, and of no others but for the expansions that lists keep; these are the minified rules themselves if and only if there are no such groups. |
| OneReading.SameTextIff | pkg/abnf/minify/minify.go:112-215 | Well-formed rules are written the same if and only if they are the same, but for the expansions that lists keep: a text that is written has one reading. |
| OneReading.ReadsBack | pkg/abnf/minify/minify.go:112-215 | A reader of repeat prefixes, literals, brackets and separators, written apart from the writer, gets back from the text of every well-formed grammar that grammar, but for the expansions that lists keep: digits before and after a star are the least and the greatest count, digits alone the only one. |
| RepeatedLists.MinifiedMeansAnother | pkg/abnf/minify/minify.go:45-90 | For every count from two on, every maximum and every element: a = n(#e), simplified with its list kept, is written exactly as a = n#e is, and matches the empty input, which the rules written that way do not. |
| RepeatedLists.WrittenAsUnrepeatedIff | pkg/abnf/minify/minify.go:164-209 | For all counts of a repetition and of the list in it: the text is that of some unrepeated list if and only if the list is repeated by one count that is not zero. Repeated no times, it is written with a leading zero. |
| RepeatedLists.RepeatedListText | pkg/abnf/minify/minify.go:164-209 | The list that it is written as has the digits of both counts, run together, as its least count. |
| MinifierLaws.MinifiedIsSettled | pkg/abnf/minify/transform.go:53-64 | Simplifying what was simplified changes nothing. |
| MinifierLaws.PassesPreserveLanguage | pkg/abnf/minify/transform.go:53-64 | Any number of passes leaves every language unchanged. |
| GrammarCopies.CloneAlternation | pkg/abnf/minify/transform.go:70-81 | The copy stands for the same tree, in new nodes throughout. |
| GrammarCopies.CloneConcatenation | pkg/abnf/minify/transform.go:83-94 | The same for a concatenation. |
| GrammarCopies.CloneRepetition | pkg/abnf/minify/transform.go:96-129 | The same for a repetition and its element. |
| GrammarCopies.CloneRule | pkg/abnf/minify/transform.go:66-68 | A new rule of the same name and the same tree. |
| GrammarWriter.WriteGrammar | pkg/abnf/minify/minify.go:112-118 | The text of all rules, one after the other. |
| GrammarWriter.WriteRule | pkg/abnf/minify/minify.go:120-131 | Name, equals sign, alternation, line end. |
| GrammarWriter.WriteAlternation | pkg/abnf/minify/minify.go:133-146 | Appends the alternatives, separated, and nothing else, to the builder. |
| GrammarWriter.WriteConcatenation | pkg/abnf/minify/minify.go:148-162 | Appends the repetitions, separated. |
| GrammarWriter.WriteRepetition | pkg/abnf/minify/minify.go:164-184 | Appends the shortest repeat prefix and the element. |
| GrammarWriter.WriteElement | pkg/abnf/minify/minify.go:186-215 | Appends an element; groups and options in their brackets. |
| GrammarWriter.WriteLeaf | pkg/abnf/minify/minify.go:197-213 | Appends an element that holds no nodes; a list keeps its operator. |
| TextDerivable.GrammarTextDerivable | pkg/abnf/minify/minify.go:112-215 | The text of a well-formed grammar is derivable from rulelist in the grammar of ABNF itself, also where lists are repeated by one count. |
| WrittenScan.TextDerivableIff | pkg/abnf/minify/minify.go:112-215 | The text of rules that are well-formed but for repeated lists derives from rulelist if and only if no list, however deep, is repeated between two different counts. |
| DerivedScan.DefinitionScans | pkg/abnf/rules.go:121-323 | In nothing that rulelist derives does an asterisk with its digits run into a number sign, outside strings, prose and comments. |
| AbnfParses.ParseDefinition | pkg/abnf/parse.go:39-65 | The parser answers on every definition, and finds some parse exactly when rulelist derives the definition. |
| AbnfParses.WrittenTextParses | pkg/abnf/minify/minify.go:70-76 | What is written for rules that are well-formed but for repeated lists has some parse if and only if no list is repeated between two different counts. |
| AbnfParses.AbnfIsWellFormed | pkg/abnf/rules.go:121-323 | Every numeral of the grammar of ABNF is valid and no minimum exceeds its maximum. |
| RulesGuard.AbnfIsGuarded | pkg/abnf/rules.go:121-323 | The grammar of ABNF is guarded: parsing with it returns on every input. |
| RuleLookup.AbnfRuleFound | pkg/abnf/rules.go:298-323 | Each of the twenty-four rules is found by its name, and no other rule by that name. |
| RuleLookup.CoreRuleFound | pkg/abnf/grammar.go:49-55 | Each core rule is found by its name through the fallback: no rule of ABNF hides it. |
| Lists.ExpansionMeaning | pkg/abnf/list.go:54-118 | An expansion matches what its form says in terms of what the element and OWS match, for every count. |
| Lists.BoundedExactIff | pkg/abnf/list.go:54-118 | The expansion of a list other than the two recipient forms allows exactly the permitted numbers of elements if and only if the maximum is not zero, or the minimum at least two (when both mean nothing at all). |
| Lists.RecipientsAcceptSenders | pkg/abnf/list.go:54-96 | The recipient forms, "#" and "1#", accept every list that a sender may write, for any element and any OWS. |
| ListExpansion.ExpansionPreservesLanguage | pkg/abnf/minify/transform.go:136-189 | Expanding every list leaves the language of every rule unchanged, on every input. |
| ListExpansion.NoListLeftInAlternation | pkg/abnf/minify/transform.go:142-178 | No list is left, in trees of the shape that parsing gives. |
| ExpansionKeeps.ExpansionStaysPlain | pkg/abnf/minify/transform.go:136-189 | Expansion leaves a tree that ABNF can spell, in which nothing comes down to a repeated list, and brings no range over a surrogate with it. |
| ExpandInPlace.ExpandLists | pkg/abnf/minify/transform.go:136-140 | Overwriting the nodes leaves trees that stand for the expanded rules. |
| ExpandInPlace.ExpandAlternation | pkg/abnf/minify/transform.go:142-178 | In place: every concatenation comes to hold its expanded repetitions. |
| ExpandInPlace.ExpandConcatenation | pkg/abnf/minify/transform.go:151-175 | In place: the repetitions of an expansion stand where an unrepeated list stood. |
| ExpandInPlace.ExpandRepetition | pkg/abnf/minify/transform.go:156-172 | What stands in place of one repetition; a repeated list stays, its element expanded. |
| Reachability.FindUnreachable | pkg/abnf/lint/analyze.go:93-153 | The walk reaches the least set of names that holds the roots and is closed under dependencies, and exactly the rules outside it are reported; a missing root is reported first. |
| Reachability.PrunedParsesAlike | pkg/abnf/lint/analyze.go:93-152 | Removing every rule that the walk does not reach leaves parsing from any of the roots unchanged: the same paths, on every input, at every depth. As parsing ensures, the grammar redefines no core rule, and core rules lead only to core rules. |
| Reachability.Visit | pkg/abnf/lint/analyze.go:96-114 | The recursive visit adds a name and all it leads to: closed beyond what was there before, and no more than it must be. |
| Reachability.WalkAlternation | pkg/abnf/lint/analyze.go:156-191 | The dependencies found are exactly those of the tree, in order. |
| Reachability.DependsIff | pkg/abnf/lint/analyze.go:156-191 | A name is a dependency if and only if it is a rulename that stands somewhere in the tree, in groups, options and the expansions of lists. |
| Drawing.Encode | pkg/encoding/qr/qr.go:107-126 | Fails exactly as the code does; otherwise the smallest version that holds the data, the first mask of least penalty, and the symbol made of the data by the functions that the rows below pin module by module; a reader turns it back into the data. Trying the other masks leaves no trace. |
| Drawing.EncodeWithMask | pkg/encoding/qr/qr.go:130-144 | The same for a given mask, which is refused if it is unknown. |
| Capacity.EncodedReadsBack | pkg/encoding/qr/qr.go:107-249 | For all data that fits, at every version, level and mask, a reader who unmasks, reads the zigzag, de-interleaves and reads the bit stream gets back the data, and every block read has error correction that fits it. |
| Layout.FunctionModuleIff | pkg/encoding/qr/qr.go:291-321 | At every version a module is reserved if and only if a timing pattern, a finder with its separator, an alignment pattern, or format or version information lies over it, by its column and row. |
| Layout.FunctionModuleAt | pkg/encoding/qr/qr.go:278-424 | What every reserved module of a finished symbol shows, by its column and row: rings around the finders and alignment centres, alternation along the timing patterns, and one bit of the format or version word. |
| Layout.DataModuleAt | pkg/encoding/qr/qr.go:466-475 | Every other module shows the bit placed there, inverted exactly where the mask says so. |
| Layout.CentersAre | pkg/encoding/qr/tables.go:49-59 | The alignment centres of every version, by a formula. |
| SymbolNumbers.InvertsIff | pkg/encoding/qr/qr.go:453-462 | Which modules each of the eight masks inverts, said in another way. |
| Symbols.SymbolReadsBack | pkg/encoding/qr/qr.go:253-275 | The same, given room for the codewords. |
| Symbols.CodewordsAreRead | pkg/encoding/qr/qr.go:426-489 | Reading the zigzag of the unmasked symbol gives the codewords first. |
| Symbols.BlocksAreRead | pkg/encoding/qr/qr.go:217-249 | The blocks a reader finds hold the data codewords, and vanish at every root of the generator. |
| Symbols.PatternsStand | pkg/encoding/qr/qr.go:278-322 | Data and masks never overwrite a function module: outside the format information each keeps the colour its pattern gave it. |
| Symbols.MaskedTwice | pkg/encoding/qr/qr.go:466-475 | Masking twice restores every module, and no mask touches a function module. |
| Symbols.UnmaskedFinished | pkg/encoding/qr/qr.go:116-123 | Taking a mask off a finished symbol restores every data module, whatever format information was drawn since. |
| Drawing.Symbol.constructor | pkg/encoding/qr/qr.go:261-276 | A new symbol has its patterns, and its codewords in the data modules. |
| Drawing.Symbol.DrawFunctionPatterns | pkg/encoding/qr/qr.go:291-321 | Timing, finders, alignment, version and reserved format modules, set and marked. |
| Drawing.Symbol.DrawFinder | pkg/encoding/qr/qr.go:325-336 | A finder with its separator, clipped at the edges. |
| Drawing.Symbol.DrawAlignment | pkg/encoding/qr/qr.go:338-344 | An alignment pattern around a centre. |
| Drawing.Symbol.DrawFormat | pkg/encoding/qr/qr.go:384-405 | Both copies of the format information and the dark module. |
| Drawing.Symbol.DrawVersion | pkg/encoding/qr/qr.go:409-420 | Both copies of the version information, from version 7 on. |
| Drawing.Symbol.DrawCodewords | pkg/encoding/qr/qr.go:426-449 | The nested loops place the bits in the modules that are not reserved, in the order of the zigzag, which OrderAt gives as a formula. |
| Drawing.Symbol.ApplyMask | pkg/encoding/qr/qr.go:466-475 | The nested loops invert exactly the data modules the mask selects. |
| Drawing.Symbol.Try | pkg/encoding/qr/qr.go:116-123 | Trying a mask scores the finished symbol and leaves every data module as it was. |
| Drawing.Symbol.Finish | pkg/encoding/qr/qr.go:478-489 | The finished symbol: masked, with its format information. |
| Capacity.RoomForCodewords | pkg/encoding/qr/tables.go:30-58 | At every version the function modules leave room for all codewords. |
| Capacity.OrderHasData | pkg/encoding/qr/qr.go:426-449 | The zigzag passes every data module. |
| Zigzag.OrderDistinct | pkg/encoding/qr/qr.go:426-449 | The zigzag passes no module twice, and stays inside the symbol. |
| Zigzag.OrderCovers | pkg/encoding/qr/qr.go:426-449 | It passes every module outside the vertical timing pattern. |
| Zigzag.OrderAt | pkg/encoding/qr/qr.go:426-449 | The order as a formula, for every size a symbol can have: strips of two columns from the right, column 6 left out, the first one upward and then downward and upward in turn, each row from the right. |
| CodewordPlaces.BitStands | pkg/encoding/qr/qr.go:426-449 | Of every codeword, every bit, the most significant first: the module for data that the zigzag reaches after so many others shows it, inverted exactly where the mask says so. |
| Zigzag.PlacedReads | pkg/encoding/qr/qr.go:426-449 | Reading in the same order gives the bits placed, and then what was there before. |
| Zigzag.PlacedElsewhere | pkg/encoding/qr/qr.go:426-449 | Placing changes neither reserved modules nor modules outside the order. |
| Patterns.FormatReadsBack | pkg/encoding/qr/qr.go:357-365 | The level and the mask are read back from the format information. |
| SymbolNumbers.FormatWordIs | pkg/encoding/qr/qr.go:357-365 | The bits computed for every level and mask are the word that ISO/IEC 18004 lists for them. |
| SymbolNumbers.VersionWordIs | pkg/encoding/qr/qr.go:369-376 | The bits computed for every version from 7 on are the word listed for it. |
| Interleaving.Interleave | pkg/encoding/qr/qr.go:217-249 | Splits the data into blocks, corrects each, and interleaves data and corrections row by row. |
| Interleaving.CodewordsReadBack | pkg/encoding/qr/qr.go:217-249 | De-interleaving gives back the data, and blocks that vanish where they should, whatever follows. |
| Interleaving.InterleavedAt | pkg/encoding/qr/qr.go:217-249 | Where each codeword of each block goes. |
| CodewordPlaces.CodewordsAt | pkg/encoding/qr/qr.go:217-249 | The number of every codeword, by a formula: with n blocks, codeword i of block b comes at i * n + b, the last ones of the longer blocks without the shorter ones before them, and correction i of block b at i * n + b after all data. A block is the data between formulas for its start and end. |
| Interleaving.DataLengthsTotal | pkg/encoding/qr/tables.go:20-26 | The blocks of a specification hold exactly its data codewords, and with their corrections its total. |
| ByteMode.TablesAgree | pkg/encoding/qr/tables.go:30-45 | For every version and level the block table and the table of totals agree, and every block is within 255 codewords. |
| SymbolNumbers.BlocksAre | pkg/encoding/qr/tables.go:30-58 | The tables at every version and level: so many data codewords, shared out among so many blocks as evenly as can be, the longer ones last, and the rest of the total equally among their corrections. |
| ByteMode.ChooseVersion | pkg/encoding/qr/qr.go:148-164 | The smallest version that holds the data, or the error, exactly as the code gives it. |
| ByteMode.DataCodewords | pkg/encoding/qr/qr.go:186-212 | Mode, length, data, terminator and pad bytes fill the capacity exactly. |
| ByteMode.SegmentRoundTrip | pkg/encoding/qr/qr.go:186-197 | Mode, length and bytes are read back from the stream, whatever follows. |
| SymbolNumbers.StreamBegins | pkg/encoding/qr/qr.go:186-197 | The bits of a stream begin with 0100, the length from its highest bit, and each byte from its highest bit. |
| SymbolNumbers.StreamEnds | pkg/encoding/qr/qr.go:198-212 | After the terminator come zeros to the end of a byte, and then 11101100 and 00010001 in turn. |
| SymbolNumbers.TailIs | pkg/encoding/qr/qr.go:198-205 | The terminator has four bits, or as many as there is room for, and ends with its byte. |
| BitStream.BitWriter.Write | pkg/encoding/qr/qr.go:172-182 | Appends the low bits of a value, most significant first, to the stream. |
| ReedSolomon.Tables.constructor | pkg/encoding/qr/reed_solomon.go:12-24 | The tables hold the powers of the generator of the field, twice over, and their logarithms. |
| ReedSolomon.Tables.Multiply | pkg/encoding/qr/reed_solomon.go:26-32 | Looking up and adding logarithms is multiplication of polynomials over GF(2) modulo 0x11d. |
| ReedSolomon.Tables.GeneratorPolynomial | pkg/encoding/qr/reed_solomon.go:36-48 | The in-place loops compute the product of (x + 2^i). |
| ReedSolomon.Tables.ErrorCorrection | pkg/encoding/qr/reed_solomon.go:52-66 | The in-place division leaves the remainder of the data by the generator polynomial. |
| ReedSolomon.GeneratorMonic | pkg/encoding/qr/reed_solomon.go:36-48 | The generator polynomial is monic. |
| ReedSolomon.GeneratorRoots | pkg/encoding/qr/reed_solomon.go:36-48 | Every power of 2 below the degree is a root of it. |
| ReedSolomon.BlockVanishes | pkg/encoding/qr/reed_solomon.go:52-66 | Any data followed by its error correction evaluates to zero at every root. |
| GaloisField.MulPowers | pkg/encoding/qr/reed_solomon.go:12-33 | Multiplying powers of the generator adds their exponents. |
| SymbolNumbers.EighthPower | pkg/encoding/qr/reed_solomon.go:12-22 | The eighth power of the generator is x^4 + x^3 + x^2 + 1: the field is the one reduced by 0x11d. |
| GaloisField.NoSmallerPeriod | pkg/encoding/qr/reed_solomon.go:12-22 | No exponent below 255 gives one: 2 generates the multiplicative group. |
| GaloisField.EveryWordIsPower | pkg/encoding/qr/reed_solomon.go:12-22 | Every byte but zero is a power of 2, so every logarithm is set. |
| BlockDistance.BlocksAreFarApart | pkg/encoding/qr/reed_solomon.go:52-66 | Different blocks of the same length differ in more codewords than they have error correction. |
| BlockDistance.DamageIsUndone | pkg/encoding/qr/reed_solomon.go:52-66 | A block damaged in no more than half as many codewords has one reading: the data. |
| CborEncoder.Encode | pkg/cbor/cbor.go:151-158 | Some bytes that the entries, met in any order, can give, with the keys of every map, at any depth, in bytewise ascending order, unless a value of an unsupported type is inside; the one encoding, if keys that are the same but for the types of integers have entries that are. |
| CborEncoder.EncodeValue | pkg/cbor/cbor.go:66-113 | Appends to the buffer bytes that the entries of the maps inside, met in any order, can give. |
| CborEncoder.EncodeMap | pkg/cbor/cbor.go:115-147 | The same for a map with keys of any type, its encoded entries in bytewise ascending order of their keys, however ties fall. |
| CborEncoder.WriteTypeAndArgument | pkg/cbor/cbor.go:34-56 | Appends the shortest head. |
| CborEncoder.EncodeInt64 | pkg/cbor/cbor.go:58-64 | Appends the head of a non-negative or a negative integer. |
| CborBytes.HeadIs | pkg/cbor/cbor.go:34-56 | A head byte by byte: the major type in the upper three bits, the argument in the lower five or in as few bytes after them as it takes, the most significant first. |
| CborBytes.EncodingIsWritten | pkg/cbor/cbor.go:66-113 | The bytes of every kind of value: its major type, argument and contents, or its simple value, as section 3 of RFC 8949 lays them out. |
| CborBytes.KeyEncodingIsWritten | pkg/cbor/cbor.go:115-147 | The same for every kind of key. |
| CborBytes.WrittenInTurn | pkg/cbor/cbor.go:66-113 | The items of an array, and the keys and items of a map, follow one another in order. |
| CborOrders.SupportedIff | pkg/cbor/cbor.go:66-113 | Something is written for a value if and only if every type inside it, those of keys included, is a supported one. |
| CborOrders.BytesAreDeterminedIff | pkg/cbor/cbor.go:115-160 | Every order in which the entries of maps can be met gives the same bytes if and only if, in every map inside, keys that are the same but for the types of integers have entries that are the same but for the types of integers. |
| CborOrders.AlikeIff | pkg/cbor/cbor.go:66-113 | The same is written for two values, the second unambiguous, if and only if they are the same but for the types of integers, the entries of maps paired off. |
| CborOrders.ApartIsUnambiguous | pkg/cbor/cbor.go:115-160 | Where no two keys of a map are written the same, entries of keys written the same are written the same. |
| CborOrders.EitherOneFirst | pkg/cbor/cbor.go:115-147 | The map from int64(1) to "a" and from uint64(1) to "b" is written in two ways. |
| ByteOrder.BelowIff | pkg/cbor/cbor.go:136-138 | Bytes are below others if and only if they are a proper prefix of them, or have the lower byte where the two first differ. |
| CborOrders.OrderedKeysAscend | pkg/cbor/cbor.go:136-138 | In whatever can be written for a value, at any depth, no key is preceded, in that order, by a later one. |
| CborOrders.KeysShareEncodingIff | pkg/cbor/cbor.go:115-147 | Keys of any types are written the same if and only if they are the same but for the type of an integer; one is never written as the beginning of another. |
| CborOrders.OneItem | pkg/cbor/cbor.go:115-147 | What is written for an unambiguous value is the one item, whatever the order of its entries. |
| CborDecoding.Decode | pkg/cbor/cbor.go:356-358 | The value of the data, if the data is one value and nothing more. |
| CborDecoding.DecodeFirst | pkg/cbor/cbor.go:371-380 | The first value, and exactly the bytes that follow it. |
| CborDecoding.Decoder.DecodeValue | pkg/cbor/cbor.go:235-338 | The offset, the value and the slots allocated are those of the specification, on success and on failure. |
| CborDecoding.Decoder.ReadTypeAndArgument | pkg/cbor/cbor.go:166-205 | Reads one head, in any length it may have, and moves on past it; moves as the code does on failure. |
| CborDecoding.Decoder.ReadSlice | pkg/cbor/cbor.go:208-218 | The next bytes, or nothing if there are fewer, and then the offset stays. |
| CborDecoding.Decoder.DecodeArray | pkg/cbor/cbor.go:269-283 | The loop reads the items up to the first failure. |
| CborDecoding.Decoder.DecodeMap | pkg/cbor/cbor.go:284-314 | The loop reads the entries up to the first failure, and refuses a key met before. |
| CborAccepts.DecodeIff | pkg/cbor/cbor.go:340-358 | Decode returns a value if and only if all the data is an encoding of it by a grammar of RFC 8949 that is written apart from the decoder: heads of any length, entries in any order under distinct keys that are integers or text, valid text, nested no deeper than 32. |
| CborAccepts.DecodesIff | pkg/cbor/cbor.go:235-338 | The same at any offset and depth, with whatever follows. |
| CborAccepts.HeadReads | pkg/cbor/cbor.go:166-205 | Every head that is read has the form of one, with the major type and argument read. |
| CborAccepts.HeadIsRead | pkg/cbor/cbor.go:166-205 | Everything that has the form of a head, in any of its lengths, is read as such. |
| CborAccepts.ValidTextIff | pkg/cbor/cbor.go:235-338 | Text is valid if and only if its bytes spell some scalar values one after the other. |
| CborDecoding.AllocationBound | pkg/cbor/cbor.go:166-351 | On every input, accepted or not, the slots allocated for arrays and maps are at most one more than the depth limit times the length of the input. |
| CborDecoding.SlotsBound | pkg/cbor/cbor.go:235-336 | The same below any nesting, from the bytes read so far or left. |
| CborLaws.RoundTripIff | pkg/cbor/cbor.go:34-380 | Whatever the encoder can write for a value, with keys of any types, followed by any bytes, is read back with exactly those bytes left, if the value is one the decoder takes (nested at most 32 deep, integers below 2^63, text valid, keys integers or text and no two alike); otherwise it is refused. |
| CborItems.PrefixFree | pkg/cbor/cbor.go:66-113 | No encoding of a data item begins another: the encoding is injective and prefix-free, at any depth, for any integers and any text. |
| CborLaws.ValuesPrefixFree | pkg/cbor/cbor.go:66-113 | What is written for one value begins what is written for another only if it is the same; and where no two keys of a map are written the same, only if the values are the same but for the types of integers. |
| CborLaws.TwoOnesAreRefused | pkg/cbor/cbor.go:288-315 | Both ways in which the map with two ones is written are refused by the decoder. |
| CborLaws.ReencodingReadsBack | pkg/cbor/cbor.go:34-380 | Whatever is accepted encodes again to bytes that decode to the same value and are no longer. |
| CborLaws.Accepted | pkg/cbor/cbor.go:235-338 | What is accepted at any depth is a value the decoder takes again, and no shorter than its encoding. |
| CborItems.HeadIsShortest | pkg/cbor/cbor.go:34-56 | No head that is accepted is shorter than the one written for its argument. |
| CborItems.HeadRoundTrip | pkg/cbor/cbor.go:166-205 | A head is read back, wherever it stands. |
| Multiplexer.RunKeeps | pkg/cdp/cdp.go:101-199 | Every interleaving of callers, reader, cancellation and failure keeps the invariant that ties ids, channels, calls and errors together. |
| Multiplexer.ResponseReachesItsCall | pkg/cdp/cdp.go:117-129 | A call that returns with a message returns the one with its own id. |
| Multiplexer.AtMostOnce | pkg/cdp/cdp.go:117-129 | At most one message is ever sent to a call. |
| Multiplexer.ReaderNeverBlocks | pkg/cdp/cdp.go:117-129 | Wherever the reader is about to send, it can. |
| Multiplexer.NothingLeaks | pkg/cdp/cdp.go:147-199 | The id of a call that has returned is no longer pending. |
| Multiplexer.DoneIffError | pkg/cdp/cdp.go:133-142 | done is closed exactly once and exactly when an error is set, which is when the reader has stopped. |
| Multiplexer.ErrorIsFinal | pkg/cdp/cdp.go:133-142 | No step changes the error once it is set. |
| Multiplexer.CallsProgress | pkg/cdp/cdp.go:147-193 | Every step of a call brings it nearer to its return. |
| Multiplexer.EndedCallsCanReturn | pkg/cdp/cdp.go:147-193 | Once the connection has failed, no call is stuck: each has a step to take. |
| Multiplexer.NoResponseIsLost | pkg/cdp/cdp.go:101-199 | In every interleaving a call that waits is pending under its id, or the reader is about to send its response, or its channel holds it. |
| Multiplexer.MessageFindsItsCall | pkg/cdp/cdp.go:117-129 | In every interleaving a message that the reader holds goes to the call that waits for it, unless that call has an answer already. |
| Multiplexer.WaitingCallIsAnswered | pkg/cdp/cdp.go:101-199 | A response to a call that waits, delivered next, is what the call returns. |
| Multiplexer.AnsweredCallReturns | pkg/cdp/cdp.go:172-184 | A call whose response has come can return it at once, and it is its own. |
| Multiplexer.PendingCallsFail | pkg/cdp/cdp.go:83-85 | Whatever happens once the connection has ended, a call that was pending returns the error that ended it, unless it could not be sent or is cancelled; none returns an answer. |
| Multiplexer.LaterCallsFail | pkg/cdp/cdp.go:83-85 | Whatever happens once the connection has ended, a call that had not registered returns the error that ended it and nothing else. |
| MultiplexerCauses.OutcomesHaveCauses | pkg/cdp/cdp.go:101-199 | In every interleaving, whatever a call returns was brought about by the steps that can: its request was written, its answer arrived and was received; or an error broke the connection and ended it; or the request could not be encoded or written; or it was written and the call cancelled. |
| MultiplexerCauses.IdsCountUp | pkg/cdp/cdp.go:148 | In every interleaving the last id is the number of calls that have taken one. |
| MultiplexerCauses.TakenIffEnabled | pkg/cdp/cdp.go:101-199 | In every interleaving a step can be taken if and only if what it waits for is there: the step before it in its goroutine, a message in the channel, or an error set. |
| Connection.Conn.Register | pkg/cdp/cdp.go:151-158 | Under the lock: a call is entered unless the connection has failed, and then the error is returned. |
| Connection.Conn.TakeId | pkg/cdp/cdp.go:148 | The next id, one more than the last. |
| Connection.Conn.Take | pkg/cdp/cdp.go:121-124 | Under the lock: the call that waits for an id, which is then no longer pending. |
| Connection.Conn.Forget | pkg/cdp/cdp.go:195-199 | Under the lock: an id is no longer pending. |
| Connection.Conn.Fail | pkg/cdp/cdp.go:133-142 | Under the lock: the first error is set and the channel closed; a later one changes nothing. |
| WebSocketFrames.FrameRoundTripIff | pkg/cdp/websocket.go:133-224 | Reading undoes writing for every opcode, mask and payload up to the limit, with whatever follows left over; a longer payload is refused. |
| WebSocketWire.MaskedIsScrambled | pkg/cdp/websocket.go:215-221 | Masking, bit by bit: byte i of the result has exactly the bits in which byte i of the payload and byte i % 4 of the mask differ. |
| WebSocketWire.FrameIsCarried | pkg/cdp/websocket.go:133-166 | The bytes of a written frame: header, mask and scrambled payload, with the shortest length. |
| WebSocketWire.ReadIff | pkg/cdp/websocket.go:174-224 | A frame is read, leaving certain bytes, if and only if the stream is those bytes after an encoding of the frame, masked or not, with its length in any of the three forms, and a payload of at most 64 MiB. |
| WebSocketMessages.MessageIff | pkg/cdp/websocket.go:228-271 | A message is returned if and only if the stream begins with its frames: one start, continuations, control frames between them, joined payloads within the limit. |
| WebSocketMessages.OneMessage | pkg/cdp/websocket.go:228-271 | On every stream, whatever happens: frames that leave the message open, then the one that ends it or the error it gives; the replies are a pong with the payload of each ping in order, and a close frame if a close frame ended it. |
| WebSocketMessages.FragmentsAreJoined | pkg/cdp/websocket.go:228-271 | The fragments of a message, with control frames between them, are read as their payloads joined. |
| WebSocket.Socket.WriteFrame | pkg/cdp/websocket.go:133-166 | What is put on the wire, unless the write fails, is one frame and nothing else: 0x80 plus the opcode, 0x80 plus the length or its marker, the length in the fewest bytes with the most significant first, a mask, and bytes that differ from the payload in exactly the bits that the mask has. |
| WebSocket.Socket.WriteMessage | pkg/cdp/websocket.go:169-171 | The same with opcode 1. |
| WebSocket.Socket.ReadFrame | pkg/cdp/websocket.go:174-224 | Consumes from the stream what the specification of a frame says, and returns what it says, errors included. |
| WebSocket.Socket.ReadMessage | pkg/cdp/websocket.go:228-271 | The loop returns what the specification of a message says and answers its pings, unless a write fails. |
| WebSocket.Mask | pkg/cdp/websocket.go:217-221 | Masks a payload in place: byte i has exactly the bits in which it and byte i % 4 of the mask differed. |
| EditDistance.Levenshtein | pkg/strings/distance.go:14-41 | The two-row loop returns the least number of insertions, deletions and substitutions that turn one into the other. |
| EditDistance.NextRow | pkg/strings/distance.go:28-38 | The inner loop fills a row of distances from the row before. |
| EditDistance.DistanceIsLeast | pkg/strings/distance.go:14-41 | Some edits of that number turn one into the other, and no fewer do. |
| EditDistance.NoFewerEdits | pkg/strings/distance.go:14-41 | No edits that turn one into the other are fewer. |
| EditDistance.SoManyEdits | pkg/strings/distance.go:14-41 | So many edits that turn one into the other exist. |
| EditDistance.Identity | pkg/strings/distance.go:14-41 | The distance is zero exactly between equal sequences. |
| EditDistance.Symmetry | pkg/strings/distance.go:14-41 | The distance is the same both ways. |
| EditDistance.Triangle | pkg/strings/distance.go:14-41 | A way round is no shorter. |
| Components.MergeComponents | pkg/sbom/image_components.go:295-338 | The loops over components and nested components compute the merged list, or the conflict. |
| Components.MergeProperties | pkg/sbom/image_components.go:347-362 | The loops keep each pair of name and value once, in order. |
| Components.SortByRef | pkg/sbom/image_components.go:334-336 | The same components, in bytewise ascending order of their bom-refs. |
| ComponentLaws.MergedIff | pkg/sbom/image_components.go:295-338 | Merging succeeds if and only if components that share a bom-ref agree in type, name, version and package URL, at every level of nesting. |
| ComponentLaws.MergedIsOrdered | pkg/sbom/image_components.go:295-338 | Strictly ascending bom-refs, bytewise, that are exactly those of the input, and after them the components without one. |
| ComponentLaws.MergedSaysTheSame | pkg/sbom/image_components.go:295-361 | Each component has the highest scope rank and the union of the properties of those it stands for, and so do those nested in it. |
| ComponentLaws.OrderDoesNotMatter | pkg/sbom/image_components.go:295-338 | Acceptance, scope ranks and property sets depend only on which components there are, not on their order or number. |
| ComponentOrders.OrderDoesNotMatterIff | pkg/sbom/image_components.go:295-338 | For every list: all orders of it give the same result if and only if it cannot be merged, or its order is of no account, as the next row spells out. |
| ComponentOrders.SinglyOrderFreeIff | pkg/sbom/image_components.go:299-362 | The order is of no account exactly if components without a bom-ref are equal, and for every bom-ref the scopes that claim the most are equal, the licences are equal where there are some, of the distinct properties of any two sharers one begin the other, and the lists nested in the sharers, taken in any order of the sharers, are of no account in turn. |
| ComponentOrders.LotsOrderIff | pkg/sbom/image_components.go:316-331 | The same for lists of components that stay in their order, as nested ones do, joined in any order. |
| ComponentGroups.SameResultIff | pkg/sbom/image_components.go:295-338 | Two lists with the same bom-refs are merged to the same result if and only if for each bom-ref the same is made of its sharers, and those without a bom-ref come in the same order. |
| ComponentGroups.GatheredIs | pkg/sbom/image_components.go:307-321 | However many share a bom-ref: the first of the scopes that claim the most, the first licences there are, every pair of name and value once, and all nested components. |
| ComponentFields.ScopeIs | pkg/sbom/image_components.go:277-314 | One sharer that is required makes the result required, or else an optional one optional, or else an excluded one excluded; of other scopes the first stands. |
| ComponentFields.LicensesAre | pkg/sbom/image_components.go:340-345 | The licences are those of the first sharer that has any. |
| ComponentFields.PropertiesAre | pkg/sbom/image_components.go:347-362 | Each pair of name and value is kept where it comes first, and nowhere else. |
| ComponentFields.KeptInOrder | pkg/sbom/image_components.go:299-306 | Components without a bom-ref keep their order, and all of them are kept. |
| ComponentOrders.LicensesDependOnOrder | pkg/sbom/image_components.go:340-345 | Two finds of one package with different licences are merged to two results. |
| ComponentLaws.MergingSettles | pkg/sbom/image_components.go:295-338 | Merging the result again returns it unchanged. |
| LineEndings.NormalizersAgree | pkg/abnf/minify/minify.go:101-110 | The normalizer of the minifier and that of the linter agree on every input. |
| LineEndings.NormalizedIff | pkg/abnf/minify/minify.go:101-110 | What is normalized ends every line with a carriage return and a line feed; it is left as it was if and only if it did so already. |
| LineEndings.NormalizingSettles | pkg/abnf/minify/minify.go:101-110 | Normalizing again changes nothing. |
| LineEndings.Source.constructor | pkg/abnf/lint/source.go:27-59 | The loop records the normalized bytes, the places where bytes were added, and the starts of lines. |
| LineEndings.Source.PositionAt | pkg/abnf/lint/source.go:63-67 | The offset in the definition that an offset of the normalized bytes leads to, with its line and column. |
| LineEndings.Source.PositionOf | pkg/abnf/lint/source.go:70-79 | The line counts the line feeds before an offset, and the column starts after the last of them. |
| LineEndings.BinarySearch | pkg/abnf/lint/source.go:63-78 | The number of sorted offsets below one, and whether it is among them. |
| LineEndings.EveryByteReturns | pkg/abnf/lint/source.go:63-67 | Every byte of the definition is found among the normalized bytes, and its place leads back to it. |
| LineEndings.AddedReturnLeadsToItsFeed | pkg/abnf/lint/source.go:63-67 | A carriage return that was added leads to the line feed it was added for. |
| LineEndings.EndReturns | pkg/abnf/lint/source.go:39-44 | The end leads to the end; of the two bytes added to an unterminated last line, the second leads one byte too far back, for both additions are recorded at one offset. |
| LineEndings.OrderIsKeptIff | pkg/abnf/lint/source.go:36-48 | Offsets of the normalized bytes lead to the definition in their order if and only if the definition is empty or ends in a line feed. |
| LineEndings.OtherOffsetsKeepOrder | pkg/abnf/lint/source.go:36-48 | The offset between the two added bytes is the only one out of order. |

## Left out

ABNF:

- Reading a path back into a grammar tree (`pkg/abnf/evaluate.go`): it walks path shapes by position. What is proved of the text is that it derives, parses, and is read back by a reader written apart from it.
- Nil nodes, nil alternations and lists without an expansion: parsing builds none of them, and the model has no way to write them.
- Minifier.MakeDefinition: trees have no shared nodes. A list's element and its expansion share nodes in the program; here a list is a value until it is expanded, and its nodes are made then.
- ExpandInPlace.ExpandLists: the nodes of an expansion are new, while in the program they are shared with the list's element; likewise below.
- ExpandInPlace.ExpandAlternation: as above.
- ExpandInPlace.ExpandConcatenation: as above.
- ExpandInPlace.ExpandRepetition: as above.
- AbnfParses.ParseDefinition: says when there is some parse; the program takes a definition only if there is exactly one, and that written text has no second parse is not proved.
- AbnfParses.WrittenTextParses: likewise some parse.
- MinifierLaws.MinifiedTextParses: likewise some parse.
- Reachability.FindUnreachable: reports every rule outside the walk, while the linter skips one whose path it did not record, and attaches positions and messages.
- Matcher.MatchElement: a numeral that is invalid makes the program panic; well-formedness excludes it, as validation does.
- Parser.Parse: for a grammar that is not guarded the program may run forever, so the method takes a guard; `ParsedExact` needs none. Which solutions there are is described, but not their order, nor how often one is found that arises in several ways.
- Non-ASCII rule names: names are compared with ASCII case folding.
- The other findings of the linter, SARIF, `pkg/abnf/utils`, and error texts.

QR codes:

- Drawing.Encode: the penalty is an arbitrary function of the modules, so nothing is claimed about its four weights.
- The error-correcting distance of the format and version words: they are computed as the code does and read back without errors only.
- Rendering a code as text rows, and correcting damage: uniqueness of the reading is proved, no decoder of damaged symbols is modelled.

CBOR:

- CborEncoder.EncodeValue: after a failure the buffer's contents are not described, as the caller discards them.
- CborEncoder.EncodeMap: likewise.
- Mapping to other Go types, `DecodeNoCopy` and its aliasing of the input, error texts, and values of kinds that cannot be keys of a Go map.

The connection:

- Connection.Conn.TakeId: the counter is unbounded, so ids never repeat.
- Multiplexer.WaitingCallIsAnswered: says what can happen next, not that a scheduler lets it happen.
- Multiplexer.AnsweredCallReturns: likewise.
- JSON, sockets, the handshake, timers and randomness: their outcomes are inputs or arbitrary choices.
- WebSocket.Socket.WriteFrame: a write that fails leaves nothing on the wire, while a real one may leave part of a frame; the connection is not used again.

Smaller algorithms:

- Components.MergeComponents: works on values rather than overwriting the components it is given.
- ComponentLaws.OrderDoesNotMatter: says nothing of licences, of unknown scopes, or of the order of properties, which do depend on the order of the input.
- Components.SortByRef: the library's stable sort is modelled by insertion.
- Everything else in the repository, such as HTTP, cloud clients, cryptography, logging, code generation and command-line tools, is plumbing or rests on libraries this model does not have.
