# Verified models of suil

This project models five self-contained parts of the suil C++ libraries in Dafny and proves properties of the
models. Citations are to the repository's files by path and line.

## What is modelled

**The HTTP route trie** (`RouteRules`, `TrieNodes`, `TrieInsert`, `TrieMerge`, `TrieRelocate`, `TrieBlocks`,
`TrieSearch`, `TrieTheorems`, `TrieSurvivors`, `RouteTrie`, `RouteLaws`, `HttpRouter`). `RouteTrie` holds the
node vector in a class whose methods add rules, merge single-character edges into longer fragments, relocate the
reachable tree into a fresh vector and search with a shared parameter stack. The specification a search is
proved against knows only rules and tokens: the least index among the rules that consume the whole URL.
`strtoll`, `strtoull` and `strtod` are parameters of the model: any deterministic functions that, when they
succeed, move forward inside the URL. Index 0 means "no rule", as in the source.

The search moves the shared stack out at every full match (line 149), also at one that stores no rule, so a
parameter that two matching paths share is handed over with the first of them only. The claim that a route
always gets its parameters is therefore false of the code; `ParametersCanBeLost` gives an instance,
`RoutesHandedIff` the exact condition before optimizing and `OptimizedHandedIff` after it, where `SurvivesIff`
says which dead paths merging has left. A moved-from parameter container is empty, as its move constructor
leaves it. A `{` that starts no known spelling is skipped silently by an addition, and so it is in the model.

`HttpRouter` is the router around the trie: the slots of the rules, the additions a registration makes, and the
selection of a rule for a request. The answer is stated over the registered texts: the first that matches. A
text with a trailing slash leaves a second entry without it, under index 1, meant for a redirect
(libs/http/src/server/router.cpp:94-103); but slot 1 holds no rule, so selection meets an empty slot there
before the redirect is reached, exactly when such an entry matches (`Router.Before`, `MissingSlash`). A
substring of no characters is the whole string (libs/base/src/string.cpp:222-230), so that registering `/` alone
is refused as a duplicate of itself.

**The JSON codec and node tree** (`JsonUtf8`, `JsonStrings`, `JsonNumbers`, `JsonText`, `JsonGrammar`,
`JsonSyntax`, `JsonLayout`, `JsonNodes`, `JsonCheck`, `JsonTrees`, `JsonLoops`). Texts are byte sequences; the
end of the sequence plays the terminator. Parser and printer are functions on values in `JsonText`; the loops of
the source, which build node trees and walk them, are methods in `JsonLoops`, proved against these functions
through the value a node tree stands for (`JsonTrees`). Numbers are kept as the text the grammar consumes.
`JsonSyntax` states the grammar of RFC 8259 as syntax trees, in its own numbers and apart from the parser;
`JsonGrammar` proves that the parser accepts exactly what they spell, and `JsonLayout` which of the spellings of
a value the printer writes. The printer escapes the bytes below 0x1F (line 1171) but the parser refuses them up
to and including 0x1F (line 870), so a round trip fails on exactly the trees that contain U+001F. `JsonNodes`
has the doubly linked child lists as objects: the list operations keep a whole forest proper, whatever detached
node they link, and make a cycle exactly when that node is its new parent or above it. `JsonCheck` takes the
consistency check on any links whatever: it answers true exactly on valid texts and proper lists, and `EndsIff`
says exactly when its recursion ends, which it does not on every structure the list operations accept (`Ring`).

**The inter-process message pipe** (`IpcFrames`, `IpcPipe`, `IpcProgress`, `IpcCalls`, `IpcMasks`,
`IpcBroadcast`). One worker's pipe is a state machine with one step for each system call or atomic operation of
any number of senders, the receiver and the mask operations, in any order. The lock is the ticket lock of
`ipc.hpp`, including the narrowing of a ticket to 32 bits; "lock order" is the order of tickets. Assumed are
what a kernel pipe gives: a header of 10 bytes is written whole, a header read takes as many of its bytes as are
there, any other read or write may be cut short or would block; and that fewer than 2^32 tickets are drawn, no
pipe call fails, the lock is not cancelled and the worker stays active. `IpcCalls` has the loops of one send and
one receive, with a scheduler that lets the other threads take any steps before each of their calls. An id may
lose its handler only while no message with it is on its way. The test of the handler bit and the drawing of the
ticket are one step. A broadcast waits on a channel that takes a count of no signals for a wait without end
(libs/base/include/suil/base/channel.hpp:144-197), so its payload is released only if some worker was
interested; this and the 8-bit loop counter, which never passes 255 workers, are part of the model.

**Base58 and Base64** (`Base58`, `Base64`). Big numbers are naturals. Base58 is proved inside its reserved
buffer, through the division loop, the zero loop and the reversal in place, and inverted by a decoder written
from the definition. Base64 follows sections 4 and 5 of RFC 4648; the decoder is modelled on every text, also on
those of odd length, where its size computation underflows.

**The SMTP server session** (`SmtpWindow`, `SmtpSession`, `SmtpRuns`, `SmtpCommands`). The session is an object
with the handlers of the source as methods, proved against functions on its fields; whole runs are traces over
arbitrary client input. Answers of overridable handlers, of the domain check and of the address parsers are
arbitrary inputs, the credential check is an arbitrary function of mechanism, user name and credentials, and
whether a handler throws or a reply can be sent is open. `String::find` gives the largest size when nothing is
found, which `startAuth` takes for a position (lines 398-404): a mechanism without a space behind it becomes the
argument of an empty mechanism, whose first character is then looked at, which throws.

## Reading the proofs

Each source file has its data model and its specification first, then the proofs in small named lemmas. A method
stands where the source has a loop or an update in place; it is proved equal to a function, or its state to a
function of the old state, and the theorems are about those functions. `dafny verify dfyconfig.toml` checks
everything.

## Model

| member | source | states |
|---|---|---|
| TrieTheorems.SearchIsBest | libs/http/src/server/trie.cpp:133-277 | in a trie that holds a set of rules, the search answers with the least nonzero index among all rules whose tokens consume the whole URL, and 0 if there is none |
| TrieTheorems.BestIsUnique | libs/http/src/server/trie.cpp:151-158 | that specification fixes one answer, so the order in which children are visited cannot matter |
| TrieTheorems.RoutesAnswer | libs/http/src/server/trie.cpp:45-335 | for every run of additions and every URL, the search before and after optimizing gives the same answer, the best one over the rules of the run |
| TrieTheorems.OptimizeKeepsAnswer | libs/http/src/server/trie.cpp:45-131 | merging and relocating any well-formed trie keep the answer to every URL, and when there is a winner its path, decoded values and index |
| TrieTheorems.OptimizedHolds | libs/http/src/server/trie.cpp:45-131 | an optimized trie holds the same rules as before: no route is lost and none invented |
| TrieTheorems.MergedAndRelocated | libs/http/src/server/trie.cpp:85-110 | merging followed by relocation of the reachable tree is an optimization in that sense |
| TrieTheorems.WinnerIsRule | libs/http/src/server/trie.cpp:148-158 | a nonzero answer belongs to a registered rule, and the values decoded on its path are those of that rule |
| TrieTheorems.HandedCompleteIff | libs/http/src/server/trie.cpp:148-158 | the parameters handed over are exactly the decoded ones if and only if no complete path tried earlier shares a parameter with the winning path (the shared stack is moved out at every full match) |
| TrieTheorems.WinsIff | libs/http/src/server/trie.cpp:133-277 | the search ends with rule `p` if and only if `p` matches, no matching rule has a smaller index, and of those with the same index `p` is tried first |
| TrieTheorems.RoutesHandedIff | libs/http/src/server/trie.cpp:133-277 | before optimizing, the parameters of the winning rule are handed over whole if and only if no path that some rule begins with consumes the URL, is tried first and shares a parameter with it |
| TrieSurvivors.OptimizedHandedIff | libs/http/src/server/trie.cpp:45-277 | after optimizing, they are handed over whole if and only if no surviving path does so |
| TrieSurvivors.SurvivesIff | libs/http/src/server/trie.cpp:45-131 | which paths an optimized trie has, read off the rules: from each path left, literals lead on in the shortest blocks at whose end a rule is stored or a parameter follows |
| TrieSurvivors.FragmentsAreBlock | libs/http/src/server/trie.cpp:69-82 | in a node where nothing is left to merge, fragments of one length are exactly as long as that block |
| TrieTheorems.OptimizeKeepsHanded | libs/http/src/server/trie.cpp:45-131 | if the parameters were complete before optimizing they are the same after it |
| TrieTheorems.ParametersCanBeLost | libs/http/src/server/trie.cpp:148-149 | a concrete loss: with `{int}/{str}` as rule 2 and `{int}/a` as rule 1, the URL `5/a` gets rule 1 without its integer, before optimizing and in every optimized form of the trie |
| TrieSearch.LeavesSound | libs/http/src/server/trie.cpp:146-276 | every full match the search reaches follows a path of the trie, decodes the rest of the URL along it and carries the index stored there |
| TrieSearch.LeavesComplete | libs/http/src/server/trie.cpp:146-276 | every path of the trie whose tokens consume the rest of the URL is reached |
| TrieSearch.LeavesOrdered | libs/http/src/server/trie.cpp:160-274 | full matches are reached in the order int, uint, double, string, path, fragment at the first difference of their paths |
| TrieSearch.BestOfLeast | libs/http/src/server/trie.cpp:151-158 | the update rule keeps the first of the full matches with the least nonzero index |
| TrieSearch.ParameterBranch | libs/http/src/server/trie.cpp:160-263 | one parameter branch joins the result below it, with the value pushed, to the result so far |
| TrieSearch.FragmentBranch | libs/http/src/server/trie.cpp:265-274 | the fragment loop joins the result below the one fragment that can match |
| TrieSearch.ResultBranch | libs/http/src/server/trie.cpp:151-158 | joining a branch is the best of both lists of matches, with the parameter stack as the moves leave it |
| TrieInsert.AddedExactly | libs/http/src/server/trie.cpp:279-335 | a successful addition gives the index to exactly the rule's own token path, keeps every other answer, and makes exactly its prefixes into paths |
| TrieInsert.DuplicateRefused | libs/http/src/server/trie.cpp:332-334 | a rule whose tokens already have an index is refused with the trie unchanged, whatever its spelling |
| TrieInsert.AddAllHolds | libs/http/src/server/trie.cpp:279-335 | after any run of additions the trie holds exactly the rules of the run, where of several with equal tokens the first with a nonzero index stands; its paths are exactly the prefixes of their tokens |
| TrieInsert.AddAllSnoc | libs/http/src/server/trie.cpp:279-335 | one more addition to a run is refused exactly when the dictionary of the run has an index for its tokens |
| TrieInsert.GoIsWalk | libs/http/src/server/trie.cpp:302-330 | character-by-character descent agrees with the general walk over fragments |
| TrieMerge.ConcatInjective | libs/http/src/server/trie.cpp:70-77 | concatenated fragments of one node never collide, not even as prefixes of one another |
| TrieMerge.AbsorbPrunes | libs/http/src/server/trie.cpp:69-77 | absorbing simple children at a node leaves what every path stores as it is, and at most forgets paths that store nothing |
| TrieMerge.AbsorbForgetsOnlyDead | libs/http/src/server/trie.cpp:58-77 | a path lost by absorbing ends at a simple node, which has no index |
| TrieMerge.MergedIsWellFormed | libs/http/src/server/trie.cpp:69-77 | after absorbing, fragments are nonempty, none is a prefix of another, and links still lead to larger indices |
| TrieMerge.AbsorbKeepsNames | libs/http/src/server/trie.cpp:69-77 | absorbing keeps every node on the token path it was on |
| TrieBlocks.AbsorbReady | libs/http/src/server/trie.cpp:69-78 | absorbing one level of untouched children leaves the fragments of the node one block: equally long, and all the paths of that length |
| TrieBlocks.AbsorbedBlock | libs/http/src/server/trie.cpp:69-76 | the grandchildren of a node under their concatenated fragments are exactly the next longer block of the paths the trie started with |
| TrieBlocks.FreshWorkable | libs/http/src/server/trie.cpp:279-335 | a trie built by additions alone meets the condition under which optimizing leaves one block of its own paths at every node |
| TrieBlocks.RelocatedBlocks | libs/http/src/server/trie.cpp:112-131 | relocation keeps the fragments of every node the block they were |
| TrieRelocate.RelocatedWalk | libs/http/src/server/trie.cpp:112-131 | the relocated vector is isomorphic to the reachable tree: every path leads to the copy of the node it led to |
| TrieRelocate.RelocatedIsWellFormed | libs/http/src/server/trie.cpp:112-131 | in the relocated vector every link leads to a strictly larger index inside it |
| TrieRelocate.OneParent | libs/http/src/server/trie.cpp:112-131 | a reachable node has at most one incoming link |
| TrieRelocate.HasParent | libs/http/src/server/trie.cpp:112-131 | every reachable node but the root has an incoming link |
| TrieRelocate.NoOrphans | libs/http/src/server/trie.cpp:85-110 | every node of the relocated vector is reachable from its root |
| TrieRelocate.RelocatedNames | libs/http/src/server/trie.cpp:112-131 | every relocated node is on the token path its original was on |
| TrieRelocate.RelocatedWhole | libs/http/src/server/trie.cpp:112-131 | a vector without orphans is relocated whole |
| RouteTrie.RoutesTrie.Add | libs/http/src/server/trie.cpp:279-335 | the loop over the rule text and its spellings table adds the tokens of the rule, or refuses a duplicate with the vector unchanged |
| RouteTrie.RoutesTrie.Enter | libs/http/src/server/trie.cpp:307-312 | one step of an addition: the child for a token, created when missing |
| RouteTrie.RoutesTrie.OptimizeNode | libs/http/src/server/trie.cpp:45-83 | merging below a node in place: stores are kept, only nodes below it change, nothing is left to merge there, a second run changes nothing, the fragments of each node end up one block, and it terminates |
| RouteTrie.RoutesTrie.OptimizeParameters | libs/http/src/server/trie.cpp:47-52 | the loop over parameter children |
| RouteTrie.RoutesTrie.OptimizeChildren | libs/http/src/server/trie.cpp:79-82 | the loop over literal children |
| RouteTrie.RoutesTrie.ChildrenSimple | libs/http/src/server/trie.cpp:58-66 | whether all literal children are simple |
| RouteTrie.RoutesTrie.MergedChildren | libs/http/src/server/trie.cpp:69-76 | the map of all grandchildren, each under its concatenated fragment |
| RouteTrie.RoutesTrie.Gather | libs/http/src/server/trie.cpp:112-131 | relocation of a subtree: each reachable node is copied exactly once, its links rewritten, and nothing outside the subtree is touched |
| RouteTrie.RoutesTrie.Optimize | libs/http/src/server/trie.cpp:85-110 | merging and relocation together keep stores and names, leave exactly the reachable nodes with one block of fragments at each; a second run merges nothing and keeps the number of nodes |
| RouteTrie.RoutesTrie.Validate | libs/http/src/server/trie.cpp:38-43 | refuses a root with an index or a parameter child and changes nothing; otherwise optimizes, with all that this ensures |
| RouteTrie.RoutesTrie.Find | libs/http/src/server/trie.cpp:133-277 | the backtracking search with its shared stack computes the specified result, including what is left on the stack |
| RouteTrie.RoutesTrie.TryParameter | libs/http/src/server/trie.cpp:160-263 | one of the five parameter branches |
| RouteTrie.RoutesTrie.TryFragments | libs/http/src/server/trie.cpp:265-274 | the loop over literal children |
| RouteTrie.RoutesTrie.FindRoute | libs/http/src/server/trie.cpp:133-147 | a search from the root gives the specified answer, and with it the parameters left to it |
| RouteTrie.ParamStack.Push | libs/http/src/server/trie.cpp:170 | a decoded value goes on the stack |
| RouteTrie.ParamStack.Pop | libs/http/src/server/trie.cpp:177 | the value is taken off again, unless the stack has been moved out meanwhile |
| RouteTrie.ParamStack.Take | libs/http/src/server/trie.cpp:149 | moving the stack out leaves it empty |
| RouteLaws.TokensIff | libs/http/src/server/trie.cpp:279-331 | a rule text has exactly the tokens it compiles to by its names: `{int}`, `{uint}`, `{float}` and `{double}`, `{str}` and `{string}`, and `{path}` to their parameters, any other character to itself, and a brace that begins no name to nothing |
| RouteLaws.WrittenTokens | libs/http/src/server/trie.cpp:279-331 | whatever token sequence a text writes out, each parameter under any of its names, the text compiles to that sequence |
| RouteLaws.ConsumeIff | libs/http/src/server/trie.cpp:160-263 | what a parameter takes of a URL: a number what its own scanner takes, behind the first characters the search admits; a string everything up to a slash or the end, at least one character; a path everything that is left |
| RouteLaws.DecodeIff | libs/http/src/server/trie.cpp:146-276 | token sequences decode to values exactly when the tokens consume the URL to its end one after the other and hand on these values |
| RouteLaws.DecodedFills | libs/http/src/server/trie.cpp:233-263 | where all parameters are strings and paths, writing the decoded values back in their place gives exactly the URL |
| RouteLaws.OrderIs | libs/http/src/server/trie.cpp:160-274 | parameters are tried as int, uint, double, string and path, and literals after them |
| HttpRouter.UrlIs | libs/http/src/server/router.cpp:58-65 | a path is its base followed by what the trie is searched for; a path without the base goes to the route of the file server |
| HttpRouter.UrlBehind | libs/http/src/server/router.cpp:58-65 | behind the base, exactly the rest of the path is searched for |
| HttpRouter.SlashTaken | libs/http/src/server/router.cpp:44-47 | a text with a trailing slash is the text without it and the slash, except that the slash alone stays what it is |
| HttpRouter.FirstMatchWins | libs/http/src/server/router.cpp:39-71 | for every run of registrations the search answers 1 exactly when an entry for a missing trailing slash matches, otherwise with the slot of the first registered rule text that matches, also among refused ones, and 0 when none does |
| HttpRouter.FirstMatchHandedIff | libs/http/src/server/router.cpp:29-86 | in a validated router that rule is handed all its parameters if and only if no surviving path of the trie consumes the URL, is tried first and shares a parameter with it |
| HttpRouter.TableHolds | libs/http/src/server/router.cpp:39-48 | the dictionary of any run of registrations in terms of the texts: each text stands under its own slot or an earlier index, and index 1 stands only for the texts without their slash that were new |
| HttpRouter.RootSimpleIff | libs/http/src/server/router.cpp:29-48 | the trie of a run validates if and only if every text starts with a literal and is more than a slash that has left an entry |
| HttpRouter.MissingSlash | libs/http/src/server/router.cpp:44-79 | a concrete input: with `/a/` registered, `/a` is answered by the entry for the slash, whose slot holds no rule |
| HttpRouter.SlashTokens | libs/http/src/server/router.cpp:44-47 | a text compiles to the tokens of the text without its trailing slash and one literal more |
| HttpRouter.Router.CreateDynamicRule | libs/http/src/server/router.cpp:22-48 | a registration keeps the slots and the trie of the run in step, and is accepted if and only if neither its tokens nor those without its trailing slash are there already and these differ, which they do not for `/` alone |
| HttpRouter.Router.Validate | libs/http/src/server/router.cpp:29-37 | accepts exactly the runs described by RootSimpleIff, leaves the trie merged and relocated for the same rules, and changes nothing otherwise |
| HttpRouter.Router.Before | libs/http/src/server/router.cpp:50-90 | what is left of a path behind the base, or the file server's route for a path without it, selects the first registered rule that matches it, if it is enabled, with the parameters handed over; an empty slot is met exactly when an entry for a missing slash matches, and the error for an index outside the table never occurs |
| Base58.DigitsFit | libs/base/src/crypto.cpp:200 | for every byte string the base-58 digits and leading-zero characters together number at most `len * 138 / 100 + 1` |
| Base58.PowersCompare | libs/base/src/crypto.cpp:200 | for every m, 256 to the power m is at most 58 to the power (11m + 7) / 8, which is what makes the reserved length enough |
| Base58.ComputeBase58 | libs/base/src/crypto.cpp:189-234 | the division loop, the zero loop and the reversal together write exactly the specified text inside the reserved buffer |
| Base58.WriteDigits | libs/base/src/crypto.cpp:212-217 | the division loop writes the digits, least significant first, and nothing else |
| Base58.WriteOnes | libs/base/src/crypto.cpp:218-224 | one `1` for each leading zero byte |
| Base58.Reverse | libs/base/src/utils.cpp:73-85 | the first `len` characters are reversed in place and the rest is untouched |
| Base58.AlphabetIs | libs/base/src/crypto.cpp:189-200 | the alphabet is the letters and digits but for 0, O, I and l, in ascending order |
| Base58.DecodeText | libs/base/src/crypto.cpp:189-234 | decoding the text, value and zero count, gives every byte string back |
| Base58.TextInjective | libs/base/src/crypto.cpp:189-234 | different byte strings have different texts |
| Base58.TextDecode | libs/base/src/crypto.cpp:189-234 | every string over the alphabet is the text of the bytes it decodes to |
| Base58.TopDigitNonzero | libs/base/src/crypto.cpp:213-217 | the division loop produces no leading zero digit |
| Base58.TextShape | libs/base/src/crypto.cpp:212-233 | reversing what the two loops wrote gives the text, and it contains no NUL |
| JsonUtf8.ReadWritten | libs/base/src/json.cpp:247-315 | reading inverts writing on every Unicode scalar value |
| JsonUtf8.ValidIsWritten | libs/base/src/json.cpp:174-315 | the validator accepts exactly what the writer produces: it is a scalar value and writing it gives the same bytes |
| JsonUtf8.ValidateCharInside | libs/base/src/json.cpp:174-225 | a character accepted at a position lies before the terminator |
| JsonUtf8.ValidateConcat | libs/base/src/json.cpp:228-238 | concatenated valid strings are valid |
| JsonUtf8.SurrogatesInverse | libs/base/src/json.cpp:323-346 | splitting into and joining surrogates are inverse, and a pair exists for exactly the code points above U+FFFF |
| JsonStrings.HexInverse | libs/base/src/json.cpp:1246-1287 | reading four hex digits inverts writing them |
| JsonStrings.ParsedIsValid | libs/base/src/json.cpp:798-909 | every string the parser accepts decodes to NUL-free valid UTF-8 |
| JsonStrings.EmittedStringParses | libs/base/src/json.cpp:1106-1205 | printed characters parse back, and parsing stops at U+001F |
| JsonStrings.StringRoundTrip | libs/base/src/json.cpp:798-1205 | a NUL-free valid string printed and parsed is itself, with the rest of the text left over, unless it contains U+001F, when it is refused: the printer escapes below 0x1F, the parser refuses up to 0x1F |
| JsonStrings.ScanCharsAgrees | libs/base/src/json.cpp:798-909 | scanning a string without a place for it accepts the same strings and stops at the same place |
| JsonStrings.ParseStringLoop | libs/base/src/json.cpp:798-909 | the loop over the characters of a string literal |
| JsonStrings.EmitStringLoop | libs/base/src/json.cpp:1106-1205 | the loop over the characters of a string to print |
| JsonNumbers.NumberSound | libs/base/src/json.cpp:921-966 | what is consumed is a number of the grammar in section 6 of RFC 8259 |
| JsonNumbers.NumberMaximal | libs/base/src/json.cpp:921-966 | no longer prefix of the text is a number |
| JsonNumbers.NumberComplete | libs/base/src/json.cpp:921-966 | a number followed by something that cannot continue it is consumed whole |
| JsonNumbers.ParseNumberLoop | libs/base/src/json.cpp:921-966 | the cursor walk over sign, integer, fraction and exponent |
| JsonText.DocumentRoundTrip | libs/base/src/json.cpp:402-417 | printing, compact or indented by whitespace, and parsing gives the same tree, with child order and repeated keys, if and only if no string or key contains U+001F; otherwise the text is refused |
| JsonText.UnitSeparatorIsLost | libs/base/src/json.cpp:402-417 | the shortest failing input: the string of U+001F alone is printed and its text is refused, in every layout |
| JsonText.ValueRoundTrip | libs/base/src/json.cpp:631-1105 | the same for a value inside a text, at any depth, consuming exactly the printed text |
| JsonText.ParsedGood | libs/base/src/json.cpp:631-909 | what the parser builds can be printed, and what it leaves is a rest of the text |
| JsonText.ParsePrintParse | libs/base/src/json.cpp:402-417 | parsing, printing and parsing again gives the first tree, unless an escape brought in U+001F |
| JsonText.ScanValueAgrees | libs/base/src/json.cpp:631-966 | validate-only parsing accepts the same values and stops at the same position |
| JsonText.ValidateAgrees | libs/base/src/json.cpp:442-454 | validating a document succeeds exactly when decoding it does |
| JsonGrammar.DecodeIff | libs/base/src/json.cpp:402-417 | decoding accepts exactly the documents of the grammar in RFC 8259, less U+0000 and unpaired surrogates, and yields the value they stand for; the grammar has its own escapes, digits, surrogates, UTF-8, white space and words |
| JsonGrammar.EscapesAre | libs/base/src/json.cpp:818-846 | the escapes of the parser are the eight pairs of section 7 of RFC 8259 and no others |
| JsonGrammar.WrittenUtf8 | libs/base/src/json.cpp:283-315 | a code point is written as the octets of section 3 of RFC 3629 |
| JsonGrammar.SurrogatesAre | libs/base/src/json.cpp:323-346 | a pair is joined exactly when it is a leading and a trailing surrogate, to the code point of the pair |
| JsonGrammar.ValidateIff | libs/base/src/json.cpp:228-238 | the strings taken for valid are exactly the UTF-8 of sequences of code points |
| JsonLayout.PrintedIff | libs/base/src/json.cpp:975-1105 | the printed document is the one spelling that is laid out: items and members on lines of their own, one unit for each level, one space behind a colon and no other white space in the indented layout, and none at all in the compact one; only what must be is escaped |
| JsonLayout.LaidPrints | libs/base/src/json.cpp:975-1105 | a laid-out spelling of a value, at any depth, is what the printer writes for it |
| JsonLayout.TreeFor | libs/base/src/json.cpp:975-1105 | every value that can be printed and read back has a laid-out spelling |
| JsonLayout.EmitsAll | libs/base/src/json.cpp:1106-1205 | quotation marks, reverse solidi and control characters are printed as escapes, with a letter where there is one and else with capital hexadecimal digits, and everything else, also the solidus, as it is |
| JsonGrammar.SpellsOne | libs/base/src/json.cpp:402-417 | no document stands for two values |
| JsonGrammar.ValueParses | libs/base/src/json.cpp:631-966 | whatever a syntax tree spells, with any white space, is parsed to its value and up to its end |
| JsonGrammar.ValueDerives | libs/base/src/json.cpp:631-966 | whatever is parsed is spelled by a syntax tree of that value |
| JsonGrammar.CharParses | libs/base/src/json.cpp:810-900 | a character, short escape, escape of four digits or surrogate pair parses to the bytes it stands for |
| JsonGrammar.CharDerives | libs/base/src/json.cpp:810-900 | whatever parses as a character is one of these |
| JsonLoops.SkipSpaceLoop | libs/base/src/json.cpp:968-973 | the loop over white space |
| JsonLoops.ParseValueCall | libs/base/src/json.cpp:631-698 | the dispatch on the first character: where parsing succeeds and where it stops, and, when a tree is asked for, that the nodes made stand for the parsed value |
| JsonLoops.ParseArrayLoop | libs/base/src/json.cpp:700-741 | the loop over array items appends the node of each to the array node |
| JsonLoops.ParseObjectLoop | libs/base/src/json.cpp:743-796 | the loop over object members appends the node of each under its key |
| JsonLoops.DecodeDocument | libs/base/src/json.cpp:402-417 | decoding a text gives a node tree, fresh and without parent, that stands for its value, or nothing if the text is no document |
| JsonLoops.ValidateLoop | libs/base/src/json.cpp:442-454 | the same parser without a place for the result answers whether decoding would succeed, and makes no nodes |
| JsonLoops.ParsedIsSound | libs/base/src/json.cpp:402-417 | every node of the tree of a decoded document has valid texts and proper lists below it, so that the consistency check of it ends and passes |
| JsonLoops.EmitValue | libs/base/src/json.cpp:975-999 | compact printing of a node appends exactly the text of the value its tree stands for |
| JsonLoops.EmitArray | libs/base/src/json.cpp:1030-1040 | the walk over the children of an array, compact |
| JsonLoops.EmitObject | libs/base/src/json.cpp:1066-1078 | the walk over the children of an object, compact |
| JsonLoops.EmitIndented | libs/base/src/json.cpp:1001-1028 | indented printing of a node appends exactly the text of the value its tree stands for |
| JsonLoops.EmitArrayIndented | libs/base/src/json.cpp:1042-1064 | the walk over the children of an array, indented |
| JsonLoops.EmitObjectIndented | libs/base/src/json.cpp:1080-1104 | the walk over the children of an object, indented |
| JsonTrees.Adopt | libs/base/src/json.cpp:552-600 | appending the tree of a value to an array or object makes the tree of the value with one more item or member |
| JsonTrees.DepictsKept | libs/base/src/json.cpp:552-629 | what a tree stands for depends on nothing outside it, nor on the key of its root |
| JsonNodes.LinkLast | libs/base/src/json.cpp:552-562 | the child list becomes the old one with the node at its end |
| JsonNodes.LinkFirst | libs/base/src/json.cpp:564-574 | the child list becomes the old one with the node at its front |
| JsonNodes.Unlink | libs/base/src/json.cpp:610-629 | the child list becomes the old one without the node, which ends up detached and without a key |
| JsonNodes.SkippedIsChildren | libs/base/src/json.cpp:613-620 | the four link updates of a removal leave a proper list of the remaining nodes |
| JsonNodes.Append | libs/base/src/json.cpp:581-600 | appending any detached node keeps the whole forest proper: this list grows, all others stay, keys fit; and it makes a cycle if and only if the node is its new parent or above it |
| JsonNodes.Prepend | libs/base/src/json.cpp:588-608 | the same at the front |
| JsonNodes.AttachedAcyclicIff | libs/base/src/json.cpp:552-574 | a parent link from a detached node makes a cycle exactly when the node is its new parent or above it |
| JsonNodes.RemoveFromParent | libs/base/src/json.cpp:610-629 | removing keeps the whole forest proper and makes no cycle; a detached node is left alone |
| JsonNodes.MakeNode | libs/base/src/json.cpp:506-512 | a new node joins the forest detached |
| JsonCheck.Check | libs/base/src/json.cpp:1289-1351 | on any links between finitely many nodes on which it ends, the check answers true if and only if keys and strings are valid UTF-8 and child lists proper, with the right keys, at the node and everywhere below it |
| JsonCheck.CheckEntries | libs/base/src/json.cpp:1315-1346 | the loop over the entries of a list, which ends on any next links: an entry that passes its tests was not met before |
| JsonCheck.EndsIff | libs/base/src/json.cpp:1289-1351 | the check ends if and only if parent links do not lead from its node back to it through nodes with valid texts, in whose lists every entry before the one on the way is sound |
| JsonCheck.CircularNeverEnds | libs/base/src/json.cpp:1323-1343 | on such a circle no depth of recursion is enough |
| JsonCheck.PassesIff | libs/base/src/json.cpp:1289-1351 | at every depth the answer true means valid texts and proper lists down to that depth, and the other way round |
| JsonCheck.DeeperSame | libs/base/src/json.cpp:1289-1351 | allowing more depth changes no answer |
| JsonCheck.ForestCheckIff | libs/base/src/json.cpp:552-629 | of nodes built by the list operations, the check answers true exactly on those that are not their own ancestors and have valid texts below them; where all texts are valid, it fails to end exactly on those that are their own ancestors, other than as their own children |
| JsonCheck.Ring | libs/base/src/json.cpp:581-586 | two arrays appended to each other: both calls are accepted, and the check of either never ends |
| JsonTrees.TreeTexts | libs/base/src/json.cpp:631-909 | in a tree that stands for a value a text can hold, every node has valid texts |
| JsonCheck.VisitOne | libs/base/src/json.cpp:1323-1335 | following next links from an entry that passes the tests never comes back to one met before |
| IpcFrames.HeaderParses | libs/base/include/suil/base/ipc.hpp:94-98 | a packed header read back gives the id, source and length |
| IpcFrames.HeaderSizes | libs/base/src/ipc.cpp:490-512 | a header is ten bytes long and holds any 64-bit length |
| IpcFrames.FramesInjective | libs/base/src/ipc.cpp:627-728 | equal byte streams come from equal messages: frame boundaries are never in doubt |
| IpcPipe.NoFrameTorn | libs/base/src/ipc.cpp:462-539 | after any run of any number of senders the messages received are a prefix of those sent in lock order, exact in source, id and body; what was read of a frame, what is in the pipe and what is still to be written are together exactly the started frames not yet received |
| IpcProgress.NothingLost | libs/base/src/ipc.cpp:627-728 | when no send is under way and the pipe is empty, everything sent has been received, in order |
| IpcPipe.IssuedAre | libs/base/src/ipc.cpp:462-539 | what is issued in any run are exactly the messages of the sends begun, in order |
| IpcPipe.HandledAre | libs/base/src/ipc.cpp:627-728 | in any run an id is handled as the last registration that concerns it left it |
| IpcPipe.PieceIff | libs/base/src/ipc.cpp:517-711 | one write or read of a body moves at least one byte, at most 4096, and no more than is left |
| IpcPipe.MutualExclusion | libs/base/include/suil/base/ipc.hpp:40-90 | the ticket lock never lets two senders in, in any run |
| IpcPipe.TurnComesIff | libs/base/include/suil/base/ipc.hpp:56-75 | a ticket, narrowed to 32 bits, is matched by the serving counter exactly for the first 2^31 tickets and the last 2^31 before the counters wrap |
| IpcProgress.MovesIff | libs/base/include/suil/base/ipc.hpp:56-86 | in every run, while sends are under way one of them can move if and only if the turn is one of the first 2^31 |
| IpcProgress.LockUsedUp | libs/base/include/suil/base/ipc.hpp:56-86 | the failing input: from every start there is a run after which a send is under way and, whatever happens next, no send can ever move |
| IpcProgress.AllCanBeReceived | libs/base/src/ipc.cpp:462-728 | every run in which at most 2^31 tickets were drawn can be continued until everything sent in it is received, in order, with the pipe empty and nobody under way |
| IpcProgress.TurnsServed | libs/base/include/suil/base/ipc.hpp:56-86 | any number of turns up to 2^31 can come and go |
| IpcPipe.AtMost | libs/base/include/suil/base/ipc.hpp:56-86 | so at most 2^31 messages are ever received over one pipe |
| IpcPipe.StepKeeps | libs/base/src/ipc.cpp:462-728 | every step of a sender, of the receiver or of a mask keeps the invariant |
| IpcPipe.WholeHeader | libs/base/src/ipc.cpp:636-660 | between frames, a pipe with anything in it starts with a whole header of the next message |
| IpcPipe.RestOfBody | libs/base/src/ipc.cpp:685-711 | inside a frame, what comes next in the pipe is the rest of its body |
| IpcPipe.PutHeaderKeeps | libs/base/src/ipc.cpp:490-512 | writing a header keeps the invariant |
| IpcPipe.PutBodyKeeps | libs/base/src/ipc.cpp:517-536 | writing any part of a body keeps the invariant |
| IpcPipe.TakeHeaderKeeps | libs/base/src/ipc.cpp:636-672 | reading a header keeps the invariant |
| IpcPipe.TakeBodyKeeps | libs/base/src/ipc.cpp:685-725 | reading any part of a body keeps the invariant |
| IpcCalls.Send | libs/base/src/ipc.cpp:462-539 | one whole call: a refused message draws no ticket and writes nothing; a message sent draws its ticket, waits, has exactly its frame written inside the lock and gives the lock back; whatever steps the other threads take before and between, they write nothing while the call is inside |
| IpcCalls.SendLocked | libs/base/src/ipc.cpp:490-539 | the two loops inside the lock, for any outcomes of their writes and any steps of the other threads before each: all that anybody writes meanwhile is the frame or what the loops have written of it |
| IpcCalls.OthersQuiet | libs/base/src/ipc.cpp:490-539 | around the holder of the lock no other thread writes, in any run of theirs |
| IpcCalls.ByIff | libs/base/src/ipc.cpp:462-539 | the steps kept from the other threads are exactly those that move the calling thread on |
| IpcCalls.ReadsIff | libs/base/src/ipc.cpp:627-728 | the steps kept from the other threads are exactly those that take something out of the pipe |
| IpcCalls.PipeBalance | libs/base/src/ipc.cpp:462-728 | in any run, what was in the pipe and what is written is, in this order, what is read and what is left in the pipe |
| IpcCalls.Receive | libs/base/src/ipc.cpp:627-728 | the loops of one receive, for any outcomes of its reads and any steps of senders and handlers before each: what is handed on is the next message in lock order |
| IpcMasks.SetBitRefines | libs/base/src/ipc.cpp:90-102 | setting or clearing one bit of the four words adds or removes exactly that id |
| IpcMasks.SetBitAt | libs/base/src/ipc.cpp:90-102 | every other bit is as it was |
| IpcMasks.IndexIsQuotient | libs/base/src/ipc.cpp:94 | the word holding a bit is the quotient by 64 |
| IpcMasks.Table.HasMessageHandler | libs/base/src/ipc.cpp:79-88 | the test answers membership of the id in the set of an active worker |
| IpcMasks.Table.SetMessageHandler | libs/base/src/ipc.cpp:90-102 | one worker's set changes by one id, all others stay |
| IpcMasks.Table.SetHandler | libs/base/src/ipc.cpp:758-789 | registering from a worker changes its own set, from the parent those of all workers but the parent's own |
| IpcMasks.CounterPassesIff | libs/base/src/ipc.cpp:763-765 | the parent's loop over the workers ends for every number of workers but 255, the largest its 8-bit counter can hold |
| IpcMasks.Table.Replay | libs/base/src/ipc.cpp:758-789 | after any sequence of registrations and unregistrations the masks are the replayed sets |
| IpcMasks.CallConcerns | libs/base/src/ipc.cpp:758-789 | a call of a worker changes its own set by the id and no other, a call of the parent those of all workers and not its own |
| IpcMasks.LastCallDecides | libs/base/src/ipc.cpp:758-789 | an id is in a set exactly as the last call that concerns it left it |
| IpcBroadcast.ReleasedAfterAll | libs/base/src/ipc.cpp:555-581 | the payload is not released while any send may read it; when it is, exactly the other workers whose bit was set when tested, at least one, have had one send each, and each has signalled exactly once, well or not |
| IpcBroadcast.ReleasableIff | libs/base/src/ipc.cpp:574-580 | once all workers are tested the payload can be released if and only if some other worker's bit was set when tested; waiting for no signals at all never ends |
| IpcBroadcast.EndReleasedIff | libs/base/src/ipc.cpp:555-581 | a run after which nothing can happen any more has released the payload if and only if some other worker's bit was set when tested |
| IpcBroadcast.StuckIff | libs/base/src/ipc.cpp:574-580 | nothing can happen any more exactly after the release, or while waiting with no send started |
| IpcBroadcast.RunsEnd | libs/base/src/ipc.cpp:555-581 | with at most 254 workers every run ends within three steps for each worker and two more |
| IpcBroadcast.TestsWithoutEnd | libs/base/src/ipc.cpp:565-571 | with 255 workers the tests go on for ever |
| IpcBroadcast.NobodyInterested | libs/base/src/ipc.cpp:555-581 | one worker without the handler: the broadcast ends neither in a release nor otherwise |
| IpcBroadcast.StepKeeps | libs/base/src/ipc.cpp:541-581 | every step keeps the count of started, running and signalled sends |
| Base64.StdRoundTrip | libs/base/src/base64.cpp:17-133 | decoding gives back every encoded byte string but the empty one, whose decoding leaves the text |
| Base64.UrlRoundTrip | libs/base/src/base64.cpp:135-219 | the URL-safe form gives back every byte string |
| Base64.EncodedInjective | libs/base/src/base64.cpp:17-160 | different byte strings have different texts, in both forms |
| Base64.EncodedLength | libs/base/src/base64.cpp:17-160 | the exact length of the text for each remainder mod 3, and that it fits the reserved space with its terminator |
| Base64.AlphabetIs | libs/base/src/base64.cpp:17-64 | the characters are those of tables 1 and 2 of RFC 4648, with the equals sign for padding |
| Base64.TestVectors | libs/base/src/base64.cpp:17-160 | test vectors of section 10 of RFC 4648 and the signs in which the two forms differ |
| Base64.InvalidIff | libs/base/src/base64.cpp:99-121 | the standard form refuses a text exactly when a group before the last one has a character that is no digit, or the first such character of the last group is no padding |
| Base64.UrlInvalidIff | libs/base/src/base64.cpp:194-217 | the URL-safe form refuses a text exactly when a group before the last one has a character that is no digit |
| Base64.CanonicalIff | libs/base/src/base64.cpp:72-133 | encoding undoes decoding on exactly the texts with proper padding and no stray low bits |
| Base64.EncodedCanonical | libs/base/src/base64.cpp:17-64 | every encoding is such a text |
| Base64.DecodedFits | libs/base/src/base64.cpp:96-132 | what decoding produces fits the space reserved for it |
| Base64.Encode | libs/base/src/base64.cpp:17-64 | the encoding loop and its padded ends |
| Base64.UrlEncode | libs/base/src/base64.cpp:135-160 | the URL-safe loop and its unpadded ends |
| Base64.Decode | libs/base/src/base64.cpp:72-133 | the decoding loop |
| Base64.DecodeTail | libs/base/src/base64.cpp:115-132 | the last group: counting digits, the padding test and the size it leaves |
| Base64.UrlDecode | libs/base/src/base64.cpp:168-219 | the URL-safe decoding loop, whose last group is not checked |
| SmtpWindow.WindowIsSuffix | libs/network/src/smtp/context.cpp:711-719 | whatever the chunks, the window is the end of the whole data stream, as long as the widest chunk so far, counted up to 5 |
| SmtpWindow.EndReportedIff | libs/network/src/smtp/context.cpp:711-725 | the end is reported exactly when some chunk so far had five characters or more and the stream ends with CRLF.CRLF |
| SmtpWindow.SmallChunksMissed | libs/network/src/smtp/context.cpp:711-725 | a terminator that comes as CRLF, full stop and CRLF in three chunks is missed |
| SmtpSession.Session.DoHello | libs/network/src/smtp/context.cpp:174-201 | HELO and EHLO answer 250, clear sender and recipients and move only a session that waits for a greeting, to waiting for authentication; an empty or refused domain answers 501, aborts and ends the session with its fields untouched |
| SmtpSession.Session.DoQuit | libs/network/src/smtp/context.cpp:203-213 | QUIT answers 221, clears sender and recipients and ends the session from any state; with an argument it answers 501 and changes nothing |
| SmtpSession.Session.StartEmail | libs/network/src/smtp/context.cpp:215-245 | MAIL FROM answers 503 and changes nothing unless mail is expected; a parse error answers 553 or 555 and sets only the size; a throwing handler answers 555 and leaves no sender; otherwise the sender is set and the handler answers, moving on to recipients exactly on 250 |
| SmtpSession.Session.AddRecipient | libs/network/src/smtp/context.cpp:247-268 | RCPT TO answers 503 unless recipients are expected and never moves the state; the recipient pushed before the handler runs is taken off again when it throws, so the list is as it was |
| SmtpSession.Session.StartData | libs/network/src/smtp/context.cpp:270-292 | DATA answers 501 with an argument, 503 unless recipients are expected and 555 when its handler throws, changing nothing; otherwise the handler answers and only 354 moves the state, to mail data |
| SmtpSession.Session.StartAuth | libs/network/src/smtp/context.cpp:385-409 | AUTH answers 503 unless authentication is due and 501 without argument, changing nothing; it throws, changing nothing, where the split leaves a mechanism of fewer than four characters; otherwise the mechanism is set and asked |
| SmtpSession.Session.ProtocolAuth | libs/network/src/smtp/context.cpp:411-443 | an unknown mechanism answers 504; LOGIN asks with 334 for what is missing and keeps a user name given; PLAIN asks with 334 or answers with the credential check without a change of state |
| SmtpSession.Session.OnLine | libs/network/src/smtp/context.cpp:445-471 | a user name line is kept and answered 334; a credential line is answered by the check of mechanism, user name and line, and opens mail exactly on 235, falling back to authentication otherwise; any other state answers 502 unchanged |
| SmtpSession.Session.IsTermination | libs/network/src/smtp/context.cpp:711-725 | the window drops as many characters as it takes, up to five of the chunk, one by one, and is compared with CRLF.CRLF; nothing but the window changes |
| SmtpSession.Session.OnData | libs/network/src/smtp/context.cpp:473-498 | a chunk slides the window and is kept; only one that completes the terminator is answered, by 553 when the handler throws, and moves the state back to expecting mail |
| SmtpSession.Session.OnCommand | libs/network/src/smtp/context.cpp:119-172 | every command reaches its handler and no other; a throwing handler of an unguarded command leaves the session as it was |
| SmtpSession.Session.ResetTo | libs/network/src/smtp/session.cpp:33-38 | sender and recipients are cleared and the state set; size, window, authentication data and last chunk stay |
| SmtpRuns.AuthenticatedFirst | libs/network/src/smtp/context.cpp:445-471 | in every run, a session in one of the three mail states has earlier had a credential line answered 235 |
| SmtpRuns.CredentialsPaired | libs/network/src/smtp/context.cpp:411-471 | in every run a credential line is checked with the mechanism and user name asked for in the turn right before it |
| SmtpRuns.AskedForIsKept | libs/network/src/smtp/context.cpp:411-471 | a turn that asks for credentials leaves the session waiting for them, with the mechanism and user name asked for |
| SmtpRuns.RecipientsAre | libs/network/src/smtp/context.cpp:247-268 | in every run the recipients of a session are exactly those accepted since an accepted greeting, RSET or QUIT last cleared them, in order |
| SmtpRuns.SenderIs | libs/network/src/smtp/context.cpp:212-245 | in every run the sender of a session is that of the last MAIL command taken, unless its handler threw or it has been cleared since; the expected size is the last one given; and what is kept of the mail data is the last chunk |
| SmtpCommands.CommandLines | libs/network/src/smtp/protocol.cpp:128-219 | which command a line is, for every command word in any case and any text behind it, and what its argument is |
| SmtpCommands.UnrecognizedIff | libs/network/src/smtp/protocol.cpp:128-219 | a line is unrecognized exactly when it begins with none of the sixteen words |
| SmtpCommands.SplitWords | libs/network/src/smtp/context.cpp:398-409 | the first word of the argument of AUTH, in any case, is the mechanism, and what is behind the space goes with it |
| SmtpCommands.SplitOthers | libs/network/src/smtp/context.cpp:398-409 | an argument that begins with a space is an unknown mechanism, and one without a space, or with a short word before it, is not looked at |
| SmtpCommands.TurnByState | libs/network/src/smtp/protocol.cpp:240-257 | the state alone says whether an input is a command, a line or mail data, and when nothing more is waited for |
| SmtpCommands.AbortsIff | libs/network/src/smtp/context.cpp:174-201 | only the refusal of a greeting aborts, unless a handler or the credential check says so |
| SmtpRuns.GreetedFirst | libs/network/src/smtp/context.cpp:174-201 | in every run, a session that is past waiting for a greeting and has not quit has earlier had one answered 250 |
| SmtpRuns.DataEnteredAndQuitFinal | libs/network/src/smtp/protocol.cpp:29-52 | in every run the data state is entered only from the recipient state by an answer of 354, and nothing is handled after the quit state |
| SmtpRuns.DataEndsIff | libs/network/src/smtp/context.cpp:473-498 | in every run, a chunk ends the mail data exactly when some chunk of the session had five characters or more and all data so far ends with CRLF.CRLF; otherwise the session stays in the data state |
| SmtpRuns.AcceptedCountsIff | libs/network/src/smtp/context.cpp:411-471 | while authentication is due, an answer of 235 leads to the mail states if and only if a credential line was waited for |
| SmtpRuns.InlinePlainHasNoEffect | libs/network/src/smtp/context.cpp:413-417 | credentials sent with the AUTH PLAIN command are answered 235 and then mail is refused with 503 |
| SmtpRuns.AuthThrowsIff | libs/network/src/smtp/context.cpp:398-409 | AUTH throws exactly when its first word is shorter than four characters or has no space behind it (an argument that starts with a space is all one word), so a bare mechanism name ends the session |
| SmtpRuns.AuthPlainThrows | libs/network/src/smtp/context.cpp:398-409 | the shortest such input: `AUTH PLAIN` alone ends the session unanswered |
| SmtpRuns.StartSession | libs/network/src/smtp/protocol.cpp:18-52 | a server that is not ready answers 421 and handles nothing; otherwise the greeting is 220 and the session runs exactly the specified trace |
| SmtpRuns.Loop | libs/network/src/smtp/protocol.cpp:29-52 | the loop over commands, lines and data |
| SmtpRuns.TakeTurn | libs/network/src/smtp/protocol.cpp:54-126 | one receive is handled by the session's state alone, and what is waited for next follows from the answer and the new state |
| SmtpRuns.TurnMoves | libs/network/src/smtp/protocol.cpp:240-257 | the mail states are entered only by an accepted credential line, the data state only from the recipient state by 354, the greeting state is never come back to, and after the quit state the loop is over |

## Left out

- TrieTheorems.OptimizeKeepsHanded: one direction; both directions, before and after, are TrieTheorems.RoutesHandedIff and TrieSurvivors.OptimizedHandedIff.
- Adding rules after optimizing.
- HttpRouter.Router.Before: does not model the request object it fills in, nor rules whose own validation or handling throws; rules are enabled when created, and switching them off is the administrator's part.
- The kinds of rules, their methods and handlers, and the redirect itself.
- The root of the trie is relocated by the same steps as any other node; the source repeats these steps for it in a loop of its own (libs/http/src/server/trie.cpp:85-110).
- Child and node maps are unordered in the model, so the order in which literal children are visited is arbitrary; the proofs hold for any order.
- The `reworked` flag of the merging function, which nothing reads, and the debug printer.
- Widths of the trie's indices and of the parameter containers' 8-bit sizes: they are unbounded here.
- URLs and rules that contain NUL bytes, where prefix tests would stop early.
- JsonNumbers.NumberSound: does not model the conversion to a double or its printing, including NaN and a conversion that would read further than the grammar; numbers stay texts.
- RouteTrie.RoutesTrie.Find: parameter values of the numeric kinds are whatever the conversion functions give, so `strtod` forms beyond decimal are covered only as far as those functions are arbitrary.
- JsonText.DocumentRoundTrip: numbers are the texts the grammar consumes, so that printing a double and reading it back, and the `null` printed for one that has no number text, are not covered; the same holds of JsonText.ValueRoundTrip and JsonText.ParsePrintParse.
- JsonText.ValueRoundTrip: numbers are texts, as in JsonText.DocumentRoundTrip.
- JsonText.ParsePrintParse: numbers are texts, as in JsonText.DocumentRoundTrip.
- JsonLoops.EmitValue: prints a number as its text, without the formatting of a double and the `null` in place of what is no number.
- JsonLoops.EmitIndented: prints a number as its text, as JsonLoops.EmitValue does.
- JsonLoops.ParseArrayLoop: does not model the deletion of the nodes made before a parse error; they are unreachable here.
- JsonLoops.ParseObjectLoop: does not model that deletion either.
- The printer's replacement of invalid UTF-8 and its ASCII-only output, which no caller reaches.
- The text of the consistency check's error message, and its tests for a missing string and an invalid tag, which the model's nodes cannot have.
- Deleting trees, path lookup, the `json::Object` wrappers, their comparison and their Lua conversion.
- IpcCalls.Send: after a broken pipe the machine is left where it is, inside the lock, which the source gives back with part of a frame written.
- IpcPipe.StepKeeps: does not model pipe failures, cancelled locks, time limits on receiving, or a handler removed while a message is on its way (its body is then not drained, libs/base/src/ipc.cpp:662-665).
- IpcMasks.Table.SetHandler: called by the parent it takes a number of workers for which its loop ends (see IpcMasks.CounterPassesIff), and IpcMasks.Table.Replay with it; the other calls take any number up to 255.
- The receive buffer on the stack and how long a handler may use it.
- Gather and get requests between workers, their deadlines, process spawning and signals.
- The OpenSSL big numbers behind Base58, and the checksum its callers may append.
- Base64.Decode: starts from an empty buffer, and says only that reads leave the text where the size underflows on fewer than three characters, not what they find there.
- Base64.UrlEncode: takes a length that an int can hold, as its loop counter does.
- Decoding the base64 of user names and credentials before they are checked, and splitting PLAIN credentials.
- SMTP address and domain syntax, the SIZE parameter, the text of answers, storing the mail, and the default HELP handler, which calls itself.
- SmtpRuns.DataEndsIff: the window is not cleared between messages, so chunks of all messages of a session count, as in the code.
- Claims that a sender is set or recipients are new in the recipient state: RSET and a repeated EHLO clear them and keep the state.
- SmtpRuns.StartSession: leaves out the text of the greeting and of the refusal, and receives whole lines; splitting the byte stream into lines is the socket's part.
