# Proofs about the Expat parser and the libstrophe client

The repository carries two C libraries: the Expat 2.1 XML parser (`External/expat/lib`) and the XMPP client
libstrophe (`External/libstrophe/src`). This project models their stateful parts, each in the form it has in C
(classes with fields, arrays that grow and are overwritten, linked nodes, scanner loops), and proves that every fast
structure agrees with a simple one: a map, an environment, a tree, a substitution, a fold, a list.

`dafny verify dfyconfig.toml` checks everything. One module per file:

- **Tables.** `DoubleHashing` (hash, odd step, probe sequence), `HashTable` (`lookup` and its rehash as a finite map,
  over whole runs), `AttributeTable` (the version-stamped table in which `storeAtts` looks for duplicate names).
- **Tokenizer.** `ByteTypes`, `ContentAutomaton`, `ContentCases` (the grammar of markup as one automaton),
  `ContentScanner` (the scanners of `xmltok_impl.c`, each proved to be a run of the automaton), `ContentTokenizer`
  (`contentTok`, `cdataSectionTok`), `ContentChunks` (what a whole input means), `ContentParser` (`doContent`,
  `doCdataSection` and the parse buffer: cutting the input changes nothing), `Converters` (UTF-8 to UTF-16 and back).
- **Grammar.** The reference for the tokenizer, stated apart from it: `Unicode` (UTF-8 and the characters of XML 1.0),
  `CharacterClasses` (the byte tables against the productions), `ContentGrammar` and `TagGrammar` (what whole inputs
  mean: character data, names and tags, elements, CDATA sections, comments), `ReferenceText` (what references in
  values stand for).
- **Attributes.** `CharacterRefs`, `AttributeText` (expansion of entities against full substitution), `AttributeValue`
  (`attributeValueTok`, `appendAttributeValue`), `AttributeList` (`getAtts` and its normalized flag).
- **Namespaces.** `Environment` (the checks on declarations), `NamespaceScope` (bindings, tags and the shared URI
  buffers), `NamespaceRun` (whole runs of tags against Namespaces in XML 1.0), `ContextString` (`getContext`,
  `setContext`).
- **Element declarations.** `ContentModel` (declared models and the reader of their tokens), `Scaffold`, `ModelBuilder`,
  `ElementDecl` (the role machine, the scaffold and `build_model`).
- **Memory.** `StringPool` (`poolGrow` and the operations on pools).
- **Strophe.** `Stanzas`, `NegotiationLog` (what may be sent and acted on), `Negotiation` (the handlers of `auth.c` as
  methods of a connection), `Handlers` (the handler list under mutation), `SendQueue` (the drain loop), `BigEndian`,
  `HashDrbg` (`arr_add` and Hash_DRBG), `Md5` (the buffering of MD5).
- `Bytes` and `Common` hold bytes, powers of two and the optional value.

A method that changes state is proved against a specification function of its inputs or of the state before, and
the lemmas say what that function means. Names between backquotes are those of the C sources.

Points where the code is not what one might expect, modelled as it is:

- `storeAtts` (`External/expat/lib/xmlparse.c:2943-2948`) compares only as far as the new name goes, so a name with
  the same hash that is the beginning of an earlier one is reported as a duplicate. `AttributeTable.FalseDuplicate`
  gives an element for which this happens, `AttributeTable.DuplicateMeans` says exactly when it does.
- `send_queue_len` is counted up by `xmpp_send_raw` and never down (`External/libstrophe/src/conn.c:710`).
  `SendQueue.QueueLength` says when it is the length of the queue: exactly until an item is popped.
  `SendQueue.CounterStays` gives a run of two events after which it is 1 and the queue is empty.
- `conn_tls_start` returns success when `tls_start` fails but `tls_error` is 0
  (`External/libstrophe/src/conn.c:773-787`); the stream is then not secured. `Negotiation.Connection.TlsStart` says
  exactly when, and `Negotiation.OpenedInTheClear` gives a connection with legacy SSL whose stream is opened in the
  clear.

## Model

| member | source | states |
|---|---|---|
| `DoubleHashing.ProbeStep` | External/expat/lib/xmlparse.c:125-128 | the step is odd and smaller than the table |
| `DoubleHashing.ProbeNext` | External/expat/lib/xmlparse.c:5999 | the conditional subtraction of the loop is subtraction of the step modulo the size |
| `DoubleHashing.ProbesDistinct` | External/expat/lib/xmlparse.c:117-128 | an odd step over a table of 2^power slots visits 2^power different slots before any repeats |
| `DoubleHashing.ProbesBounded` | External/expat/lib/xmlparse.c:5993-6000 | a probe loop has passed no more slots than are occupied, so it ends in any table with a free slot |
| `DoubleHashing.ReachedBefore` | External/expat/lib/xmlparse.c:5993-6000 | what can be found from a hash lies before the first free slot of its probe sequence |
| `HashTable.NullProbeMeansAbsent` | External/expat/lib/xmlparse.c:5990-6002 | a null slot in the probe sequence proves that the name is nowhere in the table |
| `HashTable.FillKeepsPlaced` | External/expat/lib/xmlparse.c:6014-6045 | filling the first free slot for a name keeps all other names reachable |
| `HashTable.HalfFull` | External/expat/lib/xmlparse.c:6004-6005 | the shift test holds exactly when one more entry would exceed half of the slots |
| `HashTable.MovedAll` | External/expat/lib/xmlparse.c:6014-6025 | after the rehash the new slots represent the same map with the same number of entries |
| `HashTable.HashTable.constructor` | External/expat/lib/xmlparse.c:6069-6076 | an empty table without slots |
| `HashTable.HashTable.Find` | External/expat/lib/xmlparse.c:5990-6000 | ends, at the entry of the name if the map has it and otherwise at the free slot for it |
| `HashTable.HashTable.FreeSlot` | External/expat/lib/xmlparse.c:6016-6036 | the loops that look only for a null slot end at the first one of the probe sequence |
| `HashTable.HashTable.Reinsert` | External/expat/lib/xmlparse.c:6016-6024 | one entry is moved to a free slot from which it can be found |
| `HashTable.HashTable.Grow` | External/expat/lib/xmlparse.c:6004-6030 | twice the slots, the same map and count |
| `HashTable.HashTable.Allocate` | External/expat/lib/xmlparse.c:5973-5988 | the first allocation: 64 free slots |
| `HashTable.HashTable.Insert` | External/expat/lib/xmlparse.c:6039-6045 | the map grows by exactly the new entry |
| `HashTable.HashTable.Lookup` | External/expat/lib/xmlparse.c:5970-6046 | a lookup, creating or not, is a lookup or an insertion in a finite map, through every rehash |
| `HashTable.LookupAll` | External/expat/lib/xmlparse.c:5970-6046 | over any sequence of lookups a name is found exactly when it was there or has been created by then, and always by the same entry |
| `HashTable.HashTable.Clear` | External/expat/lib/xmlparse.c:6049-6057 | the map is empty, the slots are kept |
| `AttributeTable.ClashFound` | External/expat/lib/xmlparse.c:2937-2953 | two names with equal hash of which the new one is a prefix of the stored one meet in the probe loop |
| `AttributeTable.NoClashMissed` | External/expat/lib/xmlparse.c:2937-2953 | if the loop ends at a dead slot, no attribute entered so far clashes |
| `AttributeTable.NsTable.Prepare` | External/expat/lib/xmlparse.c:2879-2903 | no slot bears the version of the new element, whatever elements came before: at wrap-around and growth all are restamped |
| `AttributeTable.NsTable.GrowPower` | External/expat/lib/xmlparse.c:2887-2889 | the loop ends with more than twice as many slots as prefixed attributes |
| `AttributeTable.NsTable.Probe` | External/expat/lib/xmlparse.c:2937-2953 | the probe loop ends, with a clash or at the free slot for the name |
| `AttributeTable.NsTable.Enter` | External/expat/lib/xmlparse.c:2918-2973 | a clash is found exactly when an earlier attribute of this element clashes, otherwise the name is entered |
| `AttributeTable.NsTable.CheckNames` | External/expat/lib/xmlparse.c:2876-2988 | reports the first unbound prefix or duplicate in document order, or expands all names, as `AttributeNamed` spells them out, and clears all flags |
| `AttributeTable.EqualNamesReported` | External/expat/lib/xmlparse.c:2934-2954 | two prefixed attributes with equal expanded names are never missed |
| `AttributeTable.DifferentHashesPass` | External/expat/lib/xmlparse.c:2941-2949 | with pairwise different hashes no duplicate is reported, and the tag passes exactly when all prefixes are bound |
| `AttributeTable.DuplicateMeans` | External/expat/lib/xmlparse.c:2934-2954 | with all prefixes bound, a duplicate is reported exactly when two expanded names are equal or a later one collides with one it is the beginning of |
| `AttributeTable.FalseDuplicate` | External/expat/lib/xmlparse.c:2943-2948 | a salt and two attributes with different expanded names that are reported as duplicates |
| `AttributeTable.VerdictUnique` | External/expat/lib/xmlparse.c:2876-2988 | the check has one possible outcome |
| `AttributeTable.LocalPartIs` | External/expat/lib/xmlparse.c:2924-2926 | the local part of an attribute name q:local, q without a colon, is local |
| `AttributeTable.AttributeNamed` | External/expat/lib/xmlparse.c:2918-2988 | an attribute q:local whose prefix is bound gets the bound text, the local part and, with triplets, separator and prefix |
| `ContentAutomaton.RunStable` | External/expat/lib/xmltok_impl.c:79-782 | once a scan has found a token or an error, more input does not change it |
| `ContentAutomaton.RunShift` | External/expat/lib/xmltok_impl.c:79-782 | a scan does not depend on what stands before it in the buffer |
| `ContentScanner.ScanComment` | External/expat/lib/xmltok_impl.c:93-126 | the scanner is the run of the automaton, with the same end or the same PARTIAL, PARTIAL_CHAR or INVALID |
| `ContentScanner.ScanPi` | External/expat/lib/xmltok_impl.c:178-282 | the same for processing instructions; the reserved targets are told apart by case |
| `ContentScanner.ScanCdataSection` | External/expat/lib/xmltok_impl.c:285-302 | the same for the opening of a CDATA section, which is compared only once six bytes are there |
| `ContentScanner.ScanEndTag` | External/expat/lib/xmltok_impl.c:383-427 | the same for end tags |
| `ContentScanner.ScanHexCharRef` | External/expat/lib/xmltok_impl.c:432-459 | the same for hexadecimal character references, in content and inside a value |
| `ContentScanner.ScanCharRef` | External/expat/lib/xmltok_impl.c:464-491 | the same for decimal character references |
| `ContentScanner.ScanRef` | External/expat/lib/xmltok_impl.c:496-521 | the same for references |
| `ContentScanner.ScanValue` | External/expat/lib/xmltok_impl.c:597-625 | the loop inside a quoted value runs up to its closing quote, across references |
| `ContentScanner.ScanAfterValue` | External/expat/lib/xmltok_impl.c:626-672 | after a value the tag ends, or another attribute begins after white space |
| `ContentScanner.ScanAtts` | External/expat/lib/xmltok_impl.c:526-680 | the same for attributes, up to the end of the tag |
| `ContentScanner.ScanLt` | External/expat/lib/xmltok_impl.c:685-782 | the same for everything that begins with a less-than sign |
| `ContentTokenizer.ScanData` | External/expat/lib/xmltok_impl.c:835-878 | a data token covers characters that no later input can change, and an error is one for every continuation |
| `ContentTokenizer.TrailingRsqbAt` | External/expat/lib/xmltok_impl.c:815-829 | one or two brackets at the end of a buffer are data if the input ends there, and undecided otherwise |
| `ContentTokenizer.ContentTok` | External/expat/lib/xmltok_impl.c:785-879 | what the token says holds of the buffer and, unless it is PARTIAL or TRAILING, of every continuation of it; `ContentGrammar` and `TagGrammar` say what that means in the terms of XML 1.0 |
| `ContentTokenizer.CdataSectionTok` | External/expat/lib/xmltok_impl.c:305-378 | the same inside a CDATA section |
| `ContentChunks.DecidedStable` | External/expat/lib/xmltok_impl.c:785-879 | a decided piece of content is the same whatever follows the buffer |
| `ContentChunks.MeaningShift` | External/expat/lib/xmltok_impl.c:785-879 | the meaning of a tail does not depend on what was consumed before it |
| `ContentChunks.MeaningOfChars` | External/expat/lib/xmlparse.c:2636-2660 | decided character data contributes exactly its bytes to the meaning of the input |
| `ContentParser.DoCdataSection` | External/expat/lib/xmlparse.c:3193-3301 | the events reported, followed by the meaning of what is left, are the meaning of the buffer and all later input |
| `ContentParser.DoContent` | External/expat/lib/xmlparse.c:2231-2685 | the same for content; at the end of the input all of it is consumed |
| `ContentParser.ResumeCdata` | External/expat/lib/xmlparse.c:3167-3187 | a section left open by the last buffer is resumed, then content |
| `ContentParser.ParseBuffer.GetBuffer` | External/expat/lib/xmlparse.c:1679-1757 | room for the next chunk, with the pending bytes and their context untouched through every move |
| `ContentParser.ParseBuffer.NewSize` | External/expat/lib/xmlparse.c:1715-1722 | the doubling loop ends with enough room |
| `ContentParser.ParseBuffer.Append` | External/expat/lib/xmlparse.c:1644-1647 | the pending bytes are followed by the chunk |
| `ContentParser.ContentParser.Parse` | External/expat/lib/xmlparse.c:1623-1676 | the meaning of the whole input, with the events reported so far, is kept by every call; on the last one it is what was reported |
| `ContentParser.ParseChunks` | External/expat/lib/xmlparse.c:1623-1676 | for any non-empty list of chunks the result is the meaning of their concatenation, which `CharacterData`, `EmptyElement`, `SimpleElement`, `CdataSection` and `CommentMeans` tie to XML 1.0 |
| `ContentParser.CompareChunkings` | External/expat/lib/xmlparse.c:1623-1676 | two ways of cutting one input give the same markup tokens and the same character data, or both are refused |
| `Unicode.RefusedMeans` | External/expat/lib/xmltok.c:91-122 | a character passes the checks of INVALID_CASES exactly when its bytes are the shortest UTF-8 form of a legal character of XML 1.0 |
| `Unicode.OneEncoding` | External/expat/lib/xmltok.c:1192-1227 | a number has one UTF-8 form |
| `Unicode.Utf8EncodeEncodes` | External/expat/lib/xmltok.c:1192-1227 | the bytes written are the UTF-8 form of the number, by section 3 of RFC 3629 |
| `Unicode.AllowedIsLegal` | External/expat/lib/xmltok.c:1173-1190 | the numbers that a reference may denote are the legal characters of XML 1.0 |
| `CharacterClasses.NameClasses` | External/expat/lib/asciitab.h:13-36 | byte by byte: names start with letters, underscore and, without namespaces, colon; digits, hyphen and dot may follow; with namespaces the colon is a class of its own |
| `CharacterClasses.DigitClasses` | External/expat/lib/asciitab.h:17-30 | the decimal digits, and the other hexadecimal ones in both cases |
| `CharacterClasses.BlankClasses` | External/expat/lib/asciitab.h:5-13 | white space is space, tab, line feed and carriage return; in entity text a carriage return ends no line |
| `CharacterClasses.ControlClass` | External/expat/lib/asciitab.h:5-12 | the control characters that XML 1.0 forbids, and no others |
| `CharacterClasses.MarkupClasses` | External/expat/lib/asciitab.h:13-28 | each delimiter of markup is a class of its own |
| `CharacterClasses.ValueClasses` | External/expat/lib/asciitab.h:13-20 | the same for equals sign, quotes, semicolon and number sign |
| `CharacterClasses.DeclarationClasses` | External/expat/lib/asciitab.h:13-36 | the same for the delimiters of declarations |
| `CharacterClasses.PiTargets` | External/expat/lib/xmltok_impl.c:178-218 | the target `xml` makes a declaration, the same letters in other case are refused, all else is a processing instruction |
| `ContentGrammar.FirstAtom` | External/expat/lib/xmltok_impl.c:785-879 | the first piece of data is a line end, one legal character of UTF-8, or an error |
| `ContentGrammar.CharacterData` | External/expat/lib/xmltok_impl.c:785-879 | production [14] of XML 1.0: any input without markup is accepted exactly when it is UTF-8 of legal characters without `]]>`, and is then its bytes with line ends by section 2.11 |
| `ContentGrammar.DataUpTo` | External/expat/lib/xmltok_impl.c:785-879 | character data before markup is reported with its line ends, and the meaning of what follows is not changed |
| `TagGrammar.EmptyElement` | External/expat/lib/xmltok_impl.c:685-782 | production [44] of XML 1.0: for every text of one-byte characters without white space, it is a name (a qualified name with namespaces) if and only if the text in an empty-element tag is read as that tag |
| `TagGrammar.SimpleElement` | External/expat/lib/xmltok_impl.c:383-782 | an element with character data means its start tag, its data with line ends, its end tag |
| `TagGrammar.CdataSection` | External/expat/lib/xmltok_impl.c:285-378 | productions [18] to [21]: any text without `]]>` in a CDATA section is data, less-than signs and ampersands included |
| `TagGrammar.CommentMeans` | External/expat/lib/xmltok_impl.c:90-126 | production [15]: what stands between the delimiters is a comment if and only if it is legal text without two hyphens in a row and none at its end |
| `Converters.PutUnits` | External/expat/lib/xmltok.c:346-377 | one character is converted whole, or nothing is consumed when it does not fit |
| `Converters.Utf8ToUtf16` | External/expat/lib/xmltok.c:341-380 | what is written, followed by the conversion of what is left, is the conversion of the input; it stops on a character boundary, where the next character does not fit |
| `Converters.PutBytes` | External/expat/lib/xmltok.c:545-596 | one character from UTF-16, or nothing when it does not fit |
| `Converters.Utf16ToUtf8` | External/expat/lib/xmltok.c:538-599 | the same for the way back, for both byte orders; surrogate pairs are never cut |
| `Converters.CharBack` | External/expat/lib/xmltok.c:91-122 | every character that passes UTF8_INVALID2, 3 and 4 comes back byte for byte |
| `Converters.SameChecks` | External/expat/lib/xmltok.c:91-122 | the checks on bit vectors agree with those on numbers that the tokenizer uses |
| `Converters.ThereAndBack` | External/expat/lib/xmltok.c:341-599 | a string of such characters comes back byte for byte, for both byte orders |
| `Converters.ConvertToUtf16` | External/expat/lib/xmltok.c:341-380 | calls with output buffers of any sizes of at least 2 units convert the whole text |
| `Converters.ConvertToUtf8` | External/expat/lib/xmltok.c:538-599 | the same with buffers of at least 4 bytes |
| `Converters.Convert` | External/expat/lib/xmltok.c:341-599 | the round trip through any buffers is the identity |
| `Converters.UnitsMean` | External/expat/lib/xmltok.c:346-377 | in plain arithmetic: a character is converted to the unit of its number or, from 2^16 on, to the surrogate pair of section 2.1 of RFC 2781 |
| `Converters.StoredOrder` | External/expat/lib/xmltok.c:617-630 | each unit is its two bytes in the order of the encoding |
| `CharacterRefs.CharRefNumber` | External/expat/lib/xmltok_impl.c:1524-1565 | the loop that leaves early on too large a number computes the number in positional notation, or refuses it |
| `AttributeText.SqueezedIs` | External/expat/lib/xmlparse.c:4967-4996 | dropping spaces on the fly leaves the words joined by single spaces, and a last space if the text ends in one |
| `AttributeText.TokenizedValue` | External/expat/lib/xmlparse.c:4929-4931 | with the last space chopped this is normalization of tokenized attributes, section 3.3.3 of XML 1.0 |
| `AttributeText.OneTree` | External/expat/lib/xmlparse.c:4997-5075 | a text has at most one full substitution |
| `AttributeText.ExpandedIsSubstituted` | External/expat/lib/xmlparse.c:5049-5074 | what is expanded without an error is a full substitution that ignores the open flags |
| `AttributeText.SubstitutedIsExpanded` | External/expat/lib/xmlparse.c:5049-5074 | a text with a finite full substitution never meets an open entity |
| `AttributeText.ExpansionIsFullSubstitution` | External/expat/lib/xmlparse.c:4938-5085 | for every table of entities, cyclic or not: expansion succeeds with a value if and only if that value is the full recursive substitution |
| `AttributeText.LegalExpands` | External/expat/lib/xmlparse.c:4997-5075 | section 4.1 of XML 1.0, No Recursion: legal text whose references are all declared and internal yields its substitution or the error of recursive reference, and no other |
| `AttributeValue.AttributeValueTok` | External/expat/lib/xmltok_impl.c:1203-1258 | the token covers text pieces without spaces, one white space, a reference, or leads to an illegal less-than sign; what follows it is again whole |
| `AttributeValue.UncutIsWhole` | External/expat/lib/xmltok_impl.c:1203-1214 | any text of whole characters, as that of an entity is, can be tokenized without running over its end |
| `AttributeValue.ValueBuilder.AppendCharRef` | External/expat/lib/xmlparse.c:4957-4982 | the character is appended, or the number is refused; a space from a reference is squeezed |
| `AttributeValue.ValueBuilder.AppendEntity` | External/expat/lib/xmlparse.c:5010-5075 | the checks in their order, then the text of the entity while it is open; ends by the number of entities not open, and restores all open flags |
| `AttributeValue.ValueBuilder.AppendNamed` | External/expat/lib/xmlparse.c:4997-5075 | a predefined entity is its character, any other is expanded; `EscapedExpands` says which character |
| `AttributeValue.ValueBuilder.AppendPiece` | External/expat/lib/xmlparse.c:4941-5083 | one turn of the loop appends the expansion of one piece |
| `AttributeValue.ValueBuilder.AppendAttributeValue` | External/expat/lib/xmlparse.c:4938-5085 | ends for every table of entities; appends the expansion of the text, squeezed if not CDATA, or reports its error; all open flags are restored; the expansion is spelled out in `ReferenceText` |
| `AttributeValue.ValueBuilder.StoreAttributeValue` | External/expat/lib/xmlparse.c:4922-4935 | the normalized value: the expansion for CDATA, its words joined by single spaces otherwise |
| `ReferenceText.EscapedExpands` | External/expat/lib/xmlparse.c:4938-5009 | section 4.6 and 3.3.3 of XML 1.0: any legal text in which the five characters are written as references expands to the text with white space turned into spaces, whatever entities are declared or open |
| `ReferenceText.EscapedComesBack` | External/expat/lib/xmltok_impl.c:1567-1619 | any legal text without other white space than spaces is what its escaped form expands to |
| `ReferenceText.NumericReferenceExpands` | External/expat/lib/xmlparse.c:4957-4982 | section 4.1: decimal and hexadecimal digits, with leading zeros and in either case, expand to the UTF-8 form of their number if it is a legal character, and are refused otherwise |
| `ReferenceText.EveryNumeral` | External/expat/lib/xmltok_impl.c:1524-1565 | every string of digits denotes a number |
| `ReferenceText.EntityExpands` | External/expat/lib/xmlparse.c:5010-5075 | a reference to another entity: undeclared, declared outside the internal subset, recursive, unparsed and external ones in this order, else the expansion of its text |
| `ReferenceText.ExpandShift` | External/expat/lib/xmlparse.c:4938-5085 | what a text expands to does not depend on what stands before it |
| `AttributeList.StandsStep` | External/expat/lib/xmltok_impl.c:1431-1521 | the three states of the loop move in step with the automaton that accepted the tag |
| `AttributeList.CloseFlag` | External/expat/lib/xmltok_impl.c:1487-1510 | the flag at the closing quote is set exactly when the value is normal, though it was tested byte by byte with one byte of look-ahead |
| `AttributeList.GetAtts` | External/expat/lib/xmltok_impl.c:1431-1521 | on an accepted tag: the number of attributes, and for those that fit in the array the exact name, value and flag |
| `AttributeList.RefReturns` | External/expat/lib/xmltok_impl.c:496-521 | a reference inside a value ends where it would end in content |
| `AttributeList.AttributesAreWhole` | External/expat/lib/xmltok_impl.c:597-625 | in an accepted tag no attribute value holds a cut character, references left aside, so the tokenizer of values never runs over its end |
| `AttributeList.NormalIsCopied` | External/expat/lib/xmltok_impl.c:1487-1510 | section 3.3.3 of XML 1.0: expanding and squeezing a value marked normalized gives its raw bytes back, for both kinds of type |
| `AttributeList.StoreValue` | External/expat/lib/xmlparse.c:2784-2815 | for every attribute of every accepted tag both branches leave the normalized value: copying is right whenever the flag allows it |
| `Environment.CheckBinding` | External/expat/lib/xmlparse.c:3074-3115 | the one pass over the URI decides all constraints of sections 3 and 5 of Namespaces in XML 1.0 on reserved prefixes and URIs |
| `Environment.ReservedPrefixes` | External/expat/lib/xmlparse.c:3074-3091 | the reserved prefixes are `xml` and `xmlns` |
| `Environment.XmlNamespaceIs` | External/expat/lib/xmlparse.c:3053-3062 | the reserved name of `xml`, letter by letter |
| `Environment.XmlnsNamespaceIs` | External/expat/lib/xmlparse.c:3063-3071 | the reserved name of `xmlns`, letter by letter |
| `NamespaceScope.NsParser.AddBinding` | External/expat/lib/xmlparse.c:3047-3161 | refuses exactly the forbidden declarations; otherwise the declaration becomes the innermost one, the previous one is remembered, and all names and declarations keep their bytes |
| `NamespaceScope.NsParser.NewBinding` | External/expat/lib/xmlparse.c:3117-3155 | the same for the part after the checks: a free or new binding with room for the URI |
| `NamespaceScope.NsParser.GrowUri` | External/expat/lib/xmlparse.c:3020-3032 | a larger URI buffer: every open element whose name stands in the old one is led to the new one |
| `NamespaceScope.NsParser.MoveNames` | External/expat/lib/xmlparse.c:3027-3029 | the loop over the tag stack changes exactly the pointers to the old buffer |
| `NamespaceScope.NsParser.BuildName` | External/expat/lib/xmlparse.c:3033-3041 | the local part and the prefix are written after the URI; no declaration in scope changes |
| `NamespaceScope.NsParser.ExpandIn` | External/expat/lib/xmlparse.c:3008-3042 | the buffer holds URI, local part and with triplets the prefix |
| `NamespaceScope.NsParser.ExpandName` | External/expat/lib/xmlparse.c:2993-3043 | the name is that of section 6 of Namespaces in XML 1.0, or the prefix is reported as unbound; `PrefixedName` says of which bytes it consists |
| `NamespaceScope.AfterFirstColon` | External/expat/lib/xmlparse.c:2998-3000 | the local part begins behind the first colon |
| `NamespaceScope.NsParser.DeclareAll` | External/expat/lib/xmlparse.c:2817-2858 | the declarations of a tag come into scope in order, up to the first that is refused |
| `NamespaceScope.NsParser.StartElement` | External/expat/lib/xmlparse.c:2383-2449 | the handler gets the expanded name in the new environment, or the tag is refused for a forbidden declaration or an unbound prefix; `TagReported` spells the name out |
| `NamespaceScope.NsParser.EmptyElement` | External/expat/lib/xmlparse.c:2452-2493 | the same, and afterwards every prefix is bound as before the tag |
| `NamespaceScope.NsParser.Unbind` | External/expat/lib/xmlparse.c:2540-2543 | the last declaration goes out of scope and its prefix is bound again as it was before |
| `NamespaceScope.NsParser.PopBindings` | External/expat/lib/xmlparse.c:2536-2544 | the environment is the one before the start tag |
| `NamespaceScope.NsParser.RebuildName` | External/expat/lib/xmlparse.c:2516-2531 | the name is put together again from the URI, the local part and the prefix, though nested elements wrote over it |
| `NamespaceScope.NsParser.EndElement` | External/expat/lib/xmlparse.c:2494-2548 | the handler gets the name that it got at the start, or the tag is refused exactly when the raw names differ; then the scope is closed |
| `NamespaceScope.NsParser.RawIs` | External/expat/lib/xmlparse.c:2504-2510 | the comparison with the raw name is right wherever the name is kept |
| `NamespaceScope.NsParser.StoreRawNames` | External/expat/lib/xmlparse.c:2055-2097 | all open elements keep their names and raw names when the buffers move, and no longer point into the parse buffer |
| `NamespaceScope.NsParser.StoreRaw` | External/expat/lib/xmlparse.c:2059-2093 | one element: the raw name is behind the name, and the buffer may have moved |
| `NamespaceScope.InnermostAt` | External/expat/lib/xmlparse.c:3147-3153 | a bound prefix has an innermost declaration that does not undeclare it |
| `NamespaceRun.EndRepeatsStart` | External/expat/lib/xmlparse.c:2512-2533 | in every run of tags the calls are nested and each end call repeats the name of its start call |
| `NamespaceRun.InnermostBinds` | External/expat/lib/xmlparse.c:3147-3153 | a prefix is bound to a text exactly when its last declaration in force says so |
| `NamespaceRun.PrefixedName` | External/expat/lib/xmlparse.c:2993-3043 | an element q:local with q bound to a text is that text and local and, with triplets, separator and prefix; with q unbound it is refused |
| `NamespaceRun.UnprefixedName` | External/expat/lib/xmlparse.c:3002-3007 | a name without prefix follows the text of the default declaration, or stands as it is |
| `NamespaceRun.PrefixedTagReported` | External/expat/lib/xmlparse.c:2381-2449 | the start handler gets that name |
| `NamespaceRun.TagReported` | External/expat/lib/xmlparse.c:2993-3043 | the tag `p:e` with `p` bound to a text and a separator is reported as text, separator and `e` |
| `NamespaceRun.ScopeRestored` | External/expat/lib/xmlparse.c:2536-2544 | after an end tag the environment is that before the start tag, whatever was inside the element |
| `NamespaceRun.Run` | External/expat/lib/xmlparse.c:2381-2548 | on any sequence of tags and buffer ends the handlers are called with exactly the names of the environment, spelled out in `PrefixedName` and `UnprefixedName`, though names and URIs share buffers that are overwritten and moved |
| `NamespaceRun.RunOn` | External/expat/lib/xmlparse.c:2381-2548 | the same from any point between two tags |
| `NamespaceRun.RunElement` | External/expat/lib/xmlparse.c:2381-2548 | after an element with all that is inside it every prefix is bound to the very text that it had before |
| `NamespaceRun.BindingsAgree` | External/expat/lib/xmlparse.c:3147-3155 | between two tags each prefix has a binding exactly when an open element or the inherited context binds it, with the text of the innermost declaration in its buffer |
| `ContextString.ParsedBack` | External/expat/lib/xmlparse.c:5493-5620 | reading what was printed gives the same entries, for names without separators and URIs without formfeed |
| `ContextString.GetContext` | External/expat/lib/xmlparse.c:5493-5559 | the string is the entries with separators between them: the default binding, the bound prefixes, the open entities |
| `ContextString.ContextBytes` | External/expat/lib/xmlparse.c:5493-5559 | the bytes of three entries: equals signs in bindings, formfeeds between entries |
| `ContextString.BareMeans` | External/expat/lib/xmlparse.c:5504-5508 | the separator behind a URI is not printed |
| `ContextString.Child.ReadUri` | External/expat/lib/xmlparse.c:5598-5602 | the loop ends at the separator or the end |
| `ContextString.Child.SetContext` | External/expat/lib/xmlparse.c:5562-5620 | the string is taken entry by entry, or refused at the first binding that is not allowed |
| `ContextString.ContextRestored` | External/expat/lib/xmlparse.c:5493-5620 | the child has the same default, the same prefixes bound to the same URIs and the same open entities |
| `ContextString.InheritContext` | External/expat/lib/xmlparse.c:5493-5620 | one method after the other, on a new parser: its default, bindings and open entities are those of the parent |
| `ContextString.BoundMapIs` | External/expat/lib/xmlparse.c:5513-5537 | these are the bindings of the bound prefixes and no others |
| `ContentModel.StepReads` | External/expat/lib/xmlrole.c:1002-1212 | every accepted token extends the text of the groups read so far |
| `ContentModel.ReadingIsDeclaring` | External/expat/lib/xmlrole.c:1002-1212 | tokens are accepted with a tree if and only if the tree can be declared and these are its tokens: one kind of connector per group, mixed content starred |
| `ContentModel.ModelsDiffer` | External/expat/lib/xmlrole.c:1002-1212 | no two models are declared by the same tokens |
| `ContentModel.FixedModels` | External/expat/lib/xmlrole.c:1013-1021 | the keyword `EMPTY` is read as the model of EMPTY, the keyword `ANY` as that of ANY |
| `Scaffold.NameAdded` | External/expat/lib/xmlparse.c:6305-6317 | a name becomes the last child of the innermost open group, and all links stay right |
| `Scaffold.GroupAdded` | External/expat/lib/xmlparse.c:6305-6317 | the same for a group that is opened inside another |
| `Scaffold.Typed` | External/expat/lib/xmlparse.c:4462-4476 | changing the type of the innermost group keeps the rest |
| `Scaffold.GroupClosed` | External/expat/lib/xmlparse.c:4650-4660 | a closed group is a complete tree and the last child of the group around it |
| `ModelBuilder.ModelIsTree` | External/expat/lib/xmlparse.c:6322-6378 | the tree can be read off the finished model in one way only |
| `ModelBuilder.BuildNode` | External/expat/lib/xmlparse.c:6322-6357 | cell and names of a tree are copied into exactly the cells and characters that the tree takes, and nothing else changes |
| `ModelBuilder.BuildGroup` | External/expat/lib/xmlparse.c:6344-6356 | the same for a group: its children lie in one run of cells |
| `ModelBuilder.BuildModel` | External/expat/lib/xmlparse.c:6359-6378 | the single allocation holds the tree and is filled exactly |
| `ElementDecl.ElementParser.NextScaffoldPart` | External/expat/lib/xmlparse.c:6274-6319 | a new cell, linked under the innermost group, through every growth of the arrays |
| `ElementDecl.ElementParser.Adopt` | External/expat/lib/xmlparse.c:6307-6316 | the last sibling and the parent are linked to the new cell |
| `ElementDecl.ElementParser.OpenGroup` | External/expat/lib/xmlparse.c:4422-4454 | the scaffold and the connectors are those of the groups with one more |
| `ElementDecl.ElementParser.SequenceConnector` | External/expat/lib/xmlparse.c:4455-4461 | a comma is refused exactly in a group with a pipe |
| `ElementDecl.ElementParser.ChoiceConnector` | External/expat/lib/xmlparse.c:4462-4476 | a pipe is refused exactly in a group with a comma; the first one makes the group a choice |
| `ElementDecl.ElementParser.AddElement` | External/expat/lib/xmlparse.c:4602-4637 | a name with its quantifier joins the innermost group and its length is counted |
| `ElementDecl.ElementParser.CloseGroup` | External/expat/lib/xmlparse.c:4639-4668 | closing the outermost group gives the model of the declared tree |
| `ElementDecl.ElementParser.FixedModel` | External/expat/lib/xmlparse.c:4571-4592 | EMPTY and ANY are models of one cell |
| `ElementDecl.ElementParser.ElementRole` | External/expat/lib/xmlrole.c:1003-1212 | the role, the next handler and the level are those of one step of the reader |
| `ElementDecl.ElementParser.Read` | External/expat/lib/xmlparse.c:4559-4668 | the role machine and the parser together take one step of the reader; a model is delivered exactly when the declaration is complete |
| `ElementDecl.ParseContentSpec` | External/expat/lib/xmlparse.c:4422-4668 | a model is delivered exactly for the tokens of a declarable content model, and it is that model |
| `StringPool.Pool.constructor` | External/expat/lib/xmlparse.c:6097-6105 | an empty pool without blocks |
| `StringPool.Pool.UseFree` | External/expat/lib/xmlparse.c:6213-6221 | a free block becomes the first one |
| `StringPool.Pool.MoveToFree` | External/expat/lib/xmlparse.c:6222-6233 | the string in progress moves to a larger free block |
| `StringPool.Pool.Enlarge` | External/expat/lib/xmlparse.c:6235-6248 | the first block is reallocated only when no finished string lies in it |
| `StringPool.Pool.NewBlock` | External/expat/lib/xmlparse.c:6249-6269 | the string in progress moves to a new block |
| `StringPool.Pool.Grow` | External/expat/lib/xmlparse.c:6210-6271 | in every branch the string in progress keeps its bytes, finished strings their places, and at most the block that was reallocated is given up |
| `StringPool.Pool.AppendChar` | External/expat/lib/xmlparse.c:454-457 | the string in progress grows by the character |
| `StringPool.Pool.Append` | External/expat/lib/xmlparse.c:6145-6158 | the string in progress grows by the text, piece by piece |
| `StringPool.Pool.Clear` | External/expat/lib/xmlparse.c:6108-6125 | all blocks are free and none is lost |
| `StringPool.Pool.StoreString` | External/expat/lib/xmlparse.c:6198-6207 | the text and its terminator |
| `StringPool.Pool.Perform` | External/expat/lib/xmlparse.c:6145-6271 | one operation does to the strings what its name says |
| `StringPool.Run` | External/expat/lib/xmlparse.c:6108-6271 | after any operations the pool holds the finished strings, each where it was finished, and the string in progress; no block is lost |
| `NegotiationLog.StartTlsOnce` | External/libstrophe/src/auth.c:564-597 | STARTTLS is sent at most once |
| `NegotiationLog.MechanismOncePerFeatures` | External/libstrophe/src/auth.c:606-722 | between two starts of one mechanism a features stanza that offers it was handled |
| `NegotiationLog.StrongerFirst` | External/libstrophe/src/auth.c:626-722 | in any safe log: before a mechanism is started, PLAIN for instance, every stronger one that was offered before it has been started since that offer (SCRAM-SHA-1 above DIGEST-MD5 above PLAIN) |
| `NegotiationLog.StartedAsOffered` | External/libstrophe/src/auth.c:237-256 | a mechanism is started only after it was offered and once per offer, ANONYMOUS exactly without a node |
| `NegotiationLog.LegacyLast` | External/libstrophe/src/auth.c:722-724 | legacy authentication needs a node and comes after a start of every mechanism but ANONYMOUS that was offered |
| `NegotiationLog.SecuredByTls` | External/libstrophe/src/conn.c:760-788 | what is sent as secured is sent after TLS came up, which is the first event or follows STARTTLS |
| `NegotiationLog.NoCredentialInTheClear` | External/libstrophe/src/auth.c:599-604 | with mandatory TLS every SASL or legacy credential is queued in the secured stream, after TLS came up |
| `NegotiationLog.BoundAfterSasl` | External/libstrophe/src/auth.c:866-1051 | a resource is bound only after a mechanism was started and succeeded and the request was sent |
| `NegotiationLog.AuthenticatedByResult` | External/libstrophe/src/auth.c:978-1131 | authenticated is set only on a bind, session or legacy result, after a credential was sent, with mandatory TLS in the secured stream |
| `Negotiation.Connection.TlsStart` | External/libstrophe/src/conn.c:760-788 | secured exactly when TLS is not disabled and starts; success in the clear exactly when it fails with error 0 |
| `Negotiation.Connection.PrepareReset` | External/libstrophe/src/conn.c:572-576 | the parser is reset with the given opener |
| `Negotiation.Connection.ConnDisconnect` | External/libstrophe/src/conn.c:554-568 | the connection is down and keeps its invariant |
| `Negotiation.Connection.TryTls` | External/libstrophe/src/auth.c:564-597 | STARTTLS is queued and its support forgotten |
| `Negotiation.Connection.TryMech` | External/libstrophe/src/auth.c:606-722 | the mechanism is queued, its own handler installed and the mechanism crossed off |
| `Negotiation.Connection.Auth` | External/libstrophe/src/auth.c:548-826 | what is queued is decided by the offer of TLS, the requirement of it and the mechanisms left: with a node never ANONYMOUS and none weaker than another that is left, without one only ANONYMOUS; legacy authentication or the end of the stream only if no usable mechanism is left; without TLS that is required the connection is closed |
| `Negotiation.Connection.OfferedMechs` | External/libstrophe/src/auth.c:237-256 | the mechanisms are those that a child names, in any case of letters |
| `Negotiation.Connection.HandleFeatures` | External/libstrophe/src/auth.c:216-261 | the mechanisms offered are noted and added, and the attempt follows |
| `Negotiation.Connection.HandleProceed` | External/libstrophe/src/auth.c:278-299 | TLS is started exactly on proceed, and noted when it comes up |
| `Negotiation.Connection.HandleSaslResult` | External/libstrophe/src/auth.c:301-334 | failure tries the next mechanism, success resets the stream, anything else disconnects |
| `Negotiation.Connection.HandleDigestChallenge` | External/libstrophe/src/auth.c:337-391 | a challenge is answered and the next handler installed, or the connection is closed |
| `Negotiation.Connection.HandleDigestRspauth` | External/libstrophe/src/auth.c:394-422 | a second challenge is answered and the handler kept |
| `Negotiation.Connection.HandleScramChallenge` | External/libstrophe/src/auth.c:425-489 | a challenge is answered and the handler kept, as long as there is a response |
| `Negotiation.Connection.HandleFeaturesSasl` | External/libstrophe/src/auth.c:866-967 | binding is requested if the server demands it |
| `Negotiation.Connection.HandleBind` | External/libstrophe/src/auth.c:978-1051 | a result authenticates, or requests a session if one is required |
| `Negotiation.Connection.HandleSession` | External/libstrophe/src/auth.c:1061-1088 | a result authenticates |
| `Negotiation.Connection.HandleLegacy` | External/libstrophe/src/auth.c:1098-1131 | a result authenticates, only in an iq stanza |
| `Negotiation.Connection.FireStanza` | External/libstrophe/src/handler.c:34-122 | a pass over the id handlers and the handler list keeps the invariant, and calls exactly the handlers of the list that want the stanza, in order |
| `Negotiation.WantsMeans` | External/libstrophe/src/handler.c:97-100 | which stanzas a handler of the negotiation wants, with the namespaces written out |
| `Stanzas.ChildByName` | External/libstrophe/src/stanza.c:789-801 | the first child of that name |
| `Stanzas.LettersOfBothCases` | External/libstrophe/src/auth.c:243-252 | names of mechanisms are compared letter by letter, in any case |
| `Negotiation.Connection.StreamStart` | External/libstrophe/src/auth.c:838-864 | the handler for features is installed once per stream |
| `Negotiation.Connection.Established` | External/libstrophe/src/event.c:256-285 | a connection that is up opens its stream; with legacy SSL exactly when the start of TLS reports success |
| `Negotiation.OpenedInTheClear` | External/libstrophe/src/event.c:256-285 | a connection on which TLS fails with error 0 and whose stream is opened in the clear |
| `Negotiation.Connection.FireTimer` | External/libstrophe/src/auth.c:203-212 | a missing reply closes the stream or tries to authenticate; no timer authenticates |
| `Negotiation.Connection.Step` | External/libstrophe/src/event.c:75-331 | any event keeps the invariant |
| `Negotiation.Run` | External/libstrophe/src/auth.c:203-1140 | in every run against any server, up to the first disconnect, the log is safe (once only STARTTLS, order of mechanisms, no credential in the clear, results before authentication), and authenticated is set only with its entry in the log |
| `Handlers.CalledInOrder` | External/libstrophe/src/handler.c:76-121 | the calls of a pass are the handlers that are due when their turn comes, each once and in order, whatever is added or removed meanwhile; `CalledExactlyWhen` says when one is due |
| `Handlers.CalledExactlyWhen` | External/libstrophe/src/handler.c:90-100 | without the words of the pass: a handler that is there at the start is called if and only if its filters fit the stanza and, if it is a handler of the user, the connection was authenticated before the pass or by a call before its turn |
| `Handlers.UserHandlersWait` | External/libstrophe/src/handler.c:90-95 | in a pass on a connection that is not authenticated every call of a handler of the user comes after one that authenticates |
| `Handlers.ChildOfNs` | External/libstrophe/src/stanza.c:815-828 | the filter on a namespace looks at the stanza and at its children |
| `Handlers.SystemHandlersRun` | External/libstrophe/src/handler.c:90-100 | a handler that is not the user's, or any once authenticated, is called exactly when it matches |
| `Handlers.NewAreNotCalled` | External/libstrophe/src/handler.c:83-88 | no handler added during the pass is called, and none twice |
| `Handlers.KeptThenNew` | External/libstrophe/src/handler.c:76-121 | whatever the callbacks ask for, the list afterwards is the handlers that are skipped or kept, in order, then the new ones in order; all of those were added by calls of the pass, and every function that a call adds is known |
| `Handlers.StaysUnlessDropped` | External/libstrophe/src/handler.c:101-114 | a handler stays exactly when no call of its own drops it |
| `Handlers.OneShotIsGone` | External/libstrophe/src/handler.c:101-114 | a handler whose own call does not ask to keep it is gone, whatever the others ask, if no later call adds it again |
| `Handlers.HandlerList.Add` | External/libstrophe/src/handler.c:363-425 | appended at the end, not enabled, unless the function is in the list already |
| `Handlers.HandlerList.Delete` | External/libstrophe/src/handler.c:434-462 | the first node of the function is unlinked |
| `Handlers.HandlerList.CallItem` | External/libstrophe/src/handler.c:97-120 | after a call the next node, the one before it and the enabled flags are right, though the callback has changed the list |
| `Handlers.HandlerList.Fire` | External/libstrophe/src/handler.c:76-121 | the walk over the changing list ends and makes the calls and leaves the list of the specification, which `CalledExactlyWhen` and `UserHandlersWait` spell out |
| `SendQueue.DrainConserves` | External/libstrophe/src/event.c:115-157 | no byte is lost, repeated or reordered by a drain |
| `SendQueue.DrainCompletes` | External/libstrophe/src/event.c:115-157 | a drain empties the queue exactly when each item is taken in full by its write |
| `SendQueue.StepConserves` | External/libstrophe/src/event.c:102-166 | every step keeps: bytes written, then bytes queued, are the bytes accepted |
| `SendQueue.RunConserves` | External/libstrophe/src/event.c:115-166 | under any pattern of partial writes and errors, bytes written followed by bytes queued are everything passed to `xmpp_send_raw` while connected |
| `SendQueue.QueueLength` | External/libstrophe/src/conn.c:679-711 | the counter is never less than the length of the queue, and equals it exactly until a write takes the whole head |
| `SendQueue.CounterStays` | External/libstrophe/src/event.c:147-156 | one byte sent and taken: the counter says 1 and the queue is empty |
| `SendQueue.Connection.SendRaw` | External/libstrophe/src/conn.c:679-711 | the data is queued at the tail, or nothing happens when not connected |
| `SendQueue.Connection.WriteHead` | External/libstrophe/src/event.c:117-156 | one write: the item is popped when all is taken, otherwise the bytes taken are noted and the loop ends |
| `SendQueue.Connection.WriteAll` | External/libstrophe/src/event.c:115-157 | the loop over the linked items is the drain of the queue |
| `SendQueue.Connection.Drain` | External/libstrophe/src/event.c:102-166 | what is pending in TLS is pushed out, then the queue is drained even if that failed, then an error disconnects; the tail is null exactly when the head is |
| `SendQueue.RunEvents` | External/libstrophe/src/event.c:93-169 | any run of a connection: its linked queue, what was written and its counter are those of the specification, and no byte is lost |
| `BigEndian.EncodeValue` | External/libstrophe/src/rand.c:78-84 | encoding the value of a byte string gives it back |
| `BigEndian.AddIsSum` | External/libstrophe/src/rand.c:59-75 | school addition with a dropped carry is addition modulo 256^n |
| `BigEndian.SumValue` | External/libstrophe/src/rand.c:59-75 | the value of the sum is the sum of the values modulo 256^n |
| `BigEndian.ArrAdd` | External/libstrophe/src/rand.c:59-75 | for all lengths the first array becomes the sum, though the loop may stop early |
| `HashDrbg.StoreBe32` | External/libstrophe/src/rand.c:78-84 | the four bytes of the number |
| `HashDrbg.ComputeDf` | External/libstrophe/src/rand.c:86-110 | section 10.4.1 of NIST SP 800-90A, Hash_df |
| `HashDrbg.ComputeGen` | External/libstrophe/src/rand.c:157-179 | section 10.1.1.4 of NIST SP 800-90A, Hashgen |
| `HashDrbg.HashDrbgCtx.Instantiate` | External/libstrophe/src/rand.c:113-133 | section 10.1.1.2 of NIST SP 800-90A |
| `HashDrbg.HashDrbgCtx.Reseed` | External/libstrophe/src/rand.c:136-155 | section 10.1.1.3 of NIST SP 800-90A |
| `HashDrbg.HashDrbgCtx.Generate` | External/libstrophe/src/rand.c:182-204 | section 10.1.1.4 of NIST SP 800-90A: the three additions into V are one addition modulo 2^440; refused exactly when a reseed is due |
| `HashDrbg.XmppRand.Reseed` | External/libstrophe/src/rand.c:217-249 | the first call instantiates, the others reseed |
| `HashDrbg.XmppRand.RandBytes` | External/libstrophe/src/rand.c:265-276 | never ends needing a reseed; output and state are those of the standard |
| `HashDrbg.RunRequests` | External/libstrophe/src/rand.c:182-276 | over any run of requests V, C, the counter and the output follow the standard |
| `HashDrbg.SizesOfSha1` | External/libstrophe/src/rand.c:26-28 | table 2 of NIST SP 800-90A for SHA-1: 160 bits of output, 440 bits of seed; a reseed is due from 2^31 on, or at 0 |
| `Md5.PaddedShape` | External/libstrophe/src/md5.c:112-143 | the padding is the shortest that fills a block and leaves room for the length |
| `Md5.PaddedBytes` | External/libstrophe/src/md5.c:112-143 | sections 3.1 and 3.2 of RFC 1321: the byte 0x80, zeros, and eight bytes that spell the bit length modulo 2^64, low-order byte first |
| `Md5.InitialBytes` | External/libstrophe/src/md5.c:55-58 | section 3.3 of RFC 1321: the initial words, byte by byte |
| `Md5.WordValue` | External/libstrophe/src/md5.c:39-44 | the four bytes of a word spell it, low-order byte first |
| `Md5.FoldAppend` | External/libstrophe/src/md5.c:98-105 | folding over whole blocks can be cut between any two of them |
| `Md5.CarryIntoHigh` | External/libstrophe/src/md5.c:74-79 | the two counters hold the bit length modulo 2^64 after any update, across every carry |
| `Md5.BufferedBytes` | External/libstrophe/src/md5.c:81 | the low counter tells how many bytes wait in the buffer |
| `Md5.MD5Context.constructor` | External/libstrophe/src/md5.c:53-64 | the initial words and no bits |
| `Md5.MD5Context.Count` | External/libstrophe/src/md5.c:72-79 | the counters after len more bytes |
| `Md5.MD5Context.Fill` | External/libstrophe/src/md5.c:83-97 | a begun block is completed and compressed, or stays begun |
| `Md5.MD5Context.Update` | External/libstrophe/src/md5.c:70-110 | the words are the fold over the whole blocks of the message so far, and the rest is in the buffer |
| `Md5.MD5Context.Pad` | External/libstrophe/src/md5.c:121-143 | one or two blocks of padding, with the last one waiting for the length |
| `Md5.MD5Context.Final` | External/libstrophe/src/md5.c:116-155 | sections 3.1 to 3.5 of RFC 1321 on the whole message; the context is wiped |
| `Md5.HashChunks` | External/libstrophe/src/md5.c:53-155 | however a message is cut into updates, the digest is that of the whole message |

## Left out

Members that state less than the code does, or assume more:

- AttributeValue.ValueBuilder.AppendAttributeValue: the text holds no cut character outside its references (`WholeFrom`), and neither do the entity texts (`WholeTexts`): at a cut character the code would read past the end of the text. `AttributeList.AttributesAreWhole` proves this of every value of an accepted tag and `AttributeValue.UncutIsWhole` of every UTF-8 text; that the texts of declared entities are UTF-8 is what `storeEntityValue` sees to, which is not modelled. The same holds for `StoreAttributeValue`, `AppendEntity`, `AppendPiece` and `AttributeValueTok`.
- AttributeList.GetAtts: is given a tag that the tokenizer accepted, as its callers do.
- ContentParser.CompareChunkings: compares the events of accepted input, and says that both ways refuse the same input; what is reported before an error is not compared.
- TagGrammar.EmptyElement: for names of one-byte characters, as in `SimpleElement`; which longer characters may start or continue a name is a parameter of the encoding, since the name bitmaps are not modelled. The statement about text that is no name leaves out white space in it.
- AttributeTable.CheckNames: the expanded names are values; that they lie in the temporary pool is not modelled.
- NamespaceScope.NsParser.StartElement: the tag is pushed after it is named, where the code pushes it first; the difference shows only after an error, which ends the parse. Which prefix object belongs to a name is given by the caller, as the tables of element types and attribute names give it.
- NamespaceScope.NsParser.EmptyElement: takes a tag for the name, where the code has a local `TAG_NAME` with its string in the temporary pool.
- NamespaceRun.Run: raw names are compared as given; that the name in an end tag has the bytes of a raw name is left to the tokenizer. Default attributes that are declarations are part of the declarations of a tag.
- ContextString.ContextRestored: names hold no `=`, formfeed or terminator, and URIs no formfeed, as in XML. The order of a hash table is any order of the sequence.
- ModelBuilder.BuildModel: the cells and the characters of the single allocation are two arrays.
- ElementDecl.ParseContentSpec: an element declaration handler is set; without one the code skips the model. White space and references to parameter entities inside the declaration are not tokens here.
- StringPool.Run: `poolChop` on an empty string is skipped, since the code never does it. A reallocated block is a new one.
- NegotiationLog.StrongerFirst: speaks of what is queued; nothing is queued once the connection is down.
- Negotiation.Run: the stanza is any tree; a missing namespace counts as not equal. Timers may fire at any time. Handlers of the application are not called.
- SendQueue.RunEvents: a write through TLS and one through the socket are the same, and the handler that is told of a disconnect does nothing.
- HashDrbg.RunRequests: requests are of at most 200 bytes with at most 128 bytes of entropy, as the sizes and assertions in the code demand.
- HashTable.HashTable.Lookup: the hash has 32 bits, as `unsigned long` has on Windows; the salt is any number. The power of the table is unbounded, where the code keeps it in an `unsigned char`.
- Handlers.HandlerList.Fire: callbacks add handlers and may authenticate, but delete none.

Parts of the repository that are not modelled:

- Allocation failure and overflow of `int` sizes: sizes are natural numbers and every allocation succeeds.
- Freeing: memory that is no longer reachable is not tracked, except the blocks of a pool.
- Linked lists of tags, bindings and free records are sequences in `NamespaceScope`, and blocks are a sequence in `StringPool`; the lists of handlers and of queued items are linked nodes.
- Suspending and resuming the parser, error positions and line counts, external entities, and the expansion of internal entities in content: entity references in content are tokens that are reported.
- The prolog outside element declarations, conditional sections, and `declClose` after other declarations in `xmlrole.c`.
- Matching of start and end tags in `ContentParser`: it reports tokens, and `NamespaceRun` matches them.
- Encodings other than UTF-8 and other encodings with one byte per character unit in the tokenizer; `utf8_toUtf8` and the UTF-16 to UTF-16 copier.
- The compression function of MD5 and SHA-1 are opaque functions, and so are the name bitmaps.
- Sockets, TLS, SASL payloads, timers, logging and user callbacks are parameters or events; `jid.c`, `scram.c`, `hash.c` and the id-handler chains, `parser_expat.c`, component connections and the reuse of a connection after disconnecting are not modelled.
- The C++ wrappers, the messenger and the server are input and output around these parts.
