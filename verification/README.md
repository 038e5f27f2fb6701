# A verified model of the XML library, the DNS codec and the multicast DNS responder

The project models these parts of the repository and proves what they are for.

* **Streaming XML content parsing** (`xmlnode/xmltok_impl.c`, `xmlnode/xmlparse.c`). `XmlTok` is the lexical
  grammar, one function per scanner; `XmlScan` holds the scanners in their own form, loops over a pointer, proved
  to compute those functions. `XmlShapes`, `XmlTagShapes` and `XmlPrologShapes` say which bytes each token stands for,
  without the scanners; `XmlTokLaws` shows what more bytes can change about a token. `XmlAtts`, `XmlDtd`,
  `XmlAttValue`, `XmlAttLaws` and `XmlHiddenSpace` are about attributes, references and attribute values, `XmlStored`
  about the attributes of an element with the declared defaults, `XmlCharRefs` about the numbers of character
  references.
  `XmlParse` says what the content parser computes; `XmlTurnLaws`, `XmlChunks` and `XmlNesting` prove chunk
  independence and well-nestedness; `XmlMerged` and `XmlMatching` say what a client sees of both. `XmlRounds` says what
  every token does to a document, `XmlEntities` and `XmlValueText` that a reference means its replacement text.
  `XmlParser` is the parser object with its buffer, stacks, flags and pools, changed in place.
* **XML trees** (`xmlnode/xmlnode.c`, `xmlnode/str.c`). `XmlTree` is about nodes that are linked by pointers, with
  text in pieces that are merged while the tree is printed; `XmlTreeState` is the code that prints, merges and
  inserts, on nodes that are kept by their addresses. `XmlPrint` is the text of a tree, with strescape and
  strunescape. `XmlTreeLaws` and `XmlPrintLaws` say node by node and byte by byte what these do.
* **Printing and parsing.** `XmlPrintTok`, `XmlPrintAtts`, `XmlPrintTags` and `XmlRoundTrip` prove that the parser
  reads what the printer writes, however the text is cut, with values and line ends normalized as `XmlNormal` says.
  `XmlRestored` is about the trees that come back as they were; `XmlSaveLoad` does both with the two objects.
* **Namespaces** (`xmlnode/xmlparse.c`). `Namespaces` and `NamespacesState` are the bindings of prefixes on the
  lists of open tags; `NsContext` is the context string for the parser of an external entity, `NsExample` a
  declaration that it does not hand on. `NamespacesLaws` has the bytes of both, and what is in scope.
* **String pools** (`xmlnode/xmlparse.c`) in `StringPool`, the **converters** between UTF-8 and UTF-16
  (`xmlnode/xmltok.c`) in `Transcode`, with their bits in `TranscodeLaws`, and the **hash table** (`xmlnode/hashtable.c`) in `HashTable`.
* **Content models** (`xmlnode/xmlrole.c`). `ContentModel` has the grammar as trees and the flat automaton, and
  proves that they accept the same declarations; `ContentModelState` is the automaton with its level counter and
  the array of connectors, and `ContentModelLaws` has the declarations as text, with the role of every mark.
* **DNS messages** (`dns/1035.c`). `Dns`, `DnsLaws` and `DnsMessage` are the wire format and the round trip;
  `DnsWire` builds a packet in place, `DnsParse` reads one, `DnsExchange` does both. `DnsMovingBase` is about the
  base from which the source resolves pointers while it builds, `DnsMovingMessage` about whole packets that are built
  with it. `DnsOctets` and `DnsReading` say octet by octet which packets are built, and which are read, and as what.
* **Multicast DNS** (`dns/mdnsd.c`). `MdnsProbe` and `MdnsQuery` are state machines over the steps of the daemon,
  with an explicit clock; `MdnsProbeState` and `MdnsQueryState` are the same in loops over the daemon's lists.
  `MdnsProbeLaws` and `MdnsQueryLaws` say what every step does to each record, query and entry of the cache, and that
  a record that was probed is announced.
* **Base64** (`misc/b64.c`) in `Base64`, with the bits of RFC 4648 in `Base64Laws`.

A file with a `...State` or `...er` class is the imperative form; its methods are proved to compute the functions
of the file beside it, and the laws are proved about those functions.

Conventions. An encoding is the 256-entry `type` table of a `normal_encoding` and three finite sets of multi-byte
characters (name start, name, invalid), for every such table; the repository is built without `XML_NS`, so a colon
has the class of a name start, and the tokenizer knows nothing of namespaces. Nodes of trees and bindings are kept in
maps from addresses, which stand for the memory they are allocated in. Positions in a buffer stand for pointers. All
handlers of content are set, except the default handler and the external entity handler. The model of the parser
starts where `prologProcessor` hands over to `contentProcessor`, at the `<` of the document element.

## Results that the source does not meet as one might expect

* The fast path of `storeAtts` for normalized attributes agrees with `storeAttributeValue` always for CDATA
  attributes, but for tokenized ones only if no multi-byte lead byte swallows the byte of a space in front of a
  space or at the end: the scanners do not look at continuation bytes. `XmlAttLaws.NormalizedFastPath` has the exact
  condition, `XmlHiddenSpace.HiddenSpaceExample` a start tag for which it fails.
* For the same reason a tokenized value may be stored with two blanks in a row or a blank at its end. It has neither
  exactly if no lead byte, in the value or in an entity that is expanded, swallows two blanks
  (`XmlAttLaws.TokenizedValue`), and, for a value that counts as normalized, none swallows one in front of a blank or
  at the end (`XmlHiddenSpace.TokenizedStored`). `XmlHiddenSpace.HiddenBlanksExample` is a start tag for which it fails.
* `_lmatch` resolves compression pointers from `m->_buf` (dns/1035.c:105-106), which is the write cursor while a
  packet is built (dns/1035.c:288, 296), and the comparison then runs onto bytes of the buffer of `_host` that are
  not set. `DnsWire` and the round trip use the start of the packet, as `message_parse` does (dns/1035.c:247). With
  the cursor as base, names are read back as they were added, for every content of those bytes, exactly if neither
  the name nor a suffix of it is first found in front of a pointer (`DnsMovingBase.MovingNameRestored`, with
  `DnsMovingBase.MovingMatchSound` for given bytes). `DnsMovingBase.ExampleIsBuilt` and
  `DnsMovingBase.MovingMatchExample` are two questions behind which the name "a" is
  written as "a.b". `DnsMovingMessage.MovingPacket` is the same condition for whole packets, along the names that are
  added.
* Two probes are at least 250 ms apart, whatever the clock shows, exactly if the last unique record that is added
  between them is added 250 ms after the first, or nothing is left to ask for (`MdnsProbe.ProbeSpacingExact`):
  `mdnsd_unique` resets the time for all records. `MdnsProbe.ProbeSpacingFails` is a run with two probes at the same
  clock.
* `setContext` restores what `getContext` has written exactly if no prefix with an empty name is bound
  (`NsContext.ContextRestored`). Where a colon is a character of names, the attribute name "xmlns:" binds it
  (`NsExample.TagIsAccepted`, `NsExample.DeclaresEmpty`), and the binding is taken for the default namespace
  (`NsExample.EmptyPrefixExample`).
* `_xmlnode2spool` goes on to the following siblings of a node that has no children: what it returns is the text of
  the node exactly if the node has children or its siblings print nothing (`XmlTree.PrintsNode`).
* Merging text in pieces changes what is printed exactly if something would be printed for a piece behind one with a
  NUL in its run (`XmlTree.MergedPrints`, `XmlTree.PrintsTree`, with the pieces of `XmlTree.NulExample`).
* A tree that is printed and parsed comes back exactly if, apart from that, no attribute value has white space other
  than blanks, and no text has line ends other than line feeds: strescape does not escape them
  (`XmlRestored.ComesBack`, `XmlRestored.MergedExactly`).
* `utf8_toUtf8` is meant not to copy a part of a character (xmlnode/xmltok.c:278). Of whole characters it copies whole
  ones exactly if all of them have room, or there is no room, or the byte in front of the end of the room is a
  character of its own (`TranscodeLaws.CopiesWhole`): otherwise it leaves out the end of the last character, and copies
  the first byte of it (`TranscodeLaws.CutExample`). `poolAppend` copies the rest then, so no string is changed by that.
* The last characters that `b64_encode` writes in front of the padding depend on bytes behind the input. They are those
  of RFC 4648 exactly if the bits that are taken from there are 0 (`Base64Laws.CanonicalText`).
* An answer of a shared record waits 20 to 119 microseconds (`MdnsProbeLaws.QuestionQueues`), where the comment at
  dns/mdnsd.c:182 has milliseconds. The model follows the code.

## Model

| member | source | states |
|---|---|---|
| XmlScan.ScanComment | xmlnode/xmltok_impl.c:107-140 | the comment scanner returns the token, or the reason there is none, of the lexical grammar, for every buffer and position |
| XmlScan.ScanDecl | xmlnode/xmltok_impl.c:145-189 | the same for the keyword of a declaration |
| XmlScan.ScanPi | xmlnode/xmltok_impl.c:236-296 | the same for processing instructions, with the spellings of "xml" that are refused |
| XmlScan.ScanCdataSection | xmlnode/xmltok_impl.c:299-314 | the same for the start of a CDATA section |
| XmlScan.ScanCdataContent | xmlnode/xmltok_impl.c:317-391 | the same for the inside of a CDATA section |
| XmlScan.ScanEndTag | xmlnode/xmltok_impl.c:395-440 | the same for end tags |
| XmlScan.ScanHexCharRef | xmlnode/xmltok_impl.c:443-472 | the same for hexadecimal character references |
| XmlScan.ScanCharRef | xmlnode/xmltok_impl.c:475-504 | the same for character references |
| XmlScan.ScanRef | xmlnode/xmltok_impl.c:507-534 | the same for references |
| XmlScan.ScanAtts | xmlnode/xmltok_impl.c:537-694 | the same for the attributes of a start tag up to its end |
| XmlScan.ScanLt | xmlnode/xmltok_impl.c:697-793 | the same for everything that "<" can start in content |
| XmlScan.ScanContent | xmlnode/xmltok_impl.c:796-892 | contentTok as a whole, with "]]>", carriage returns and cut-off characters |
| XmlScan.ScanPercent | xmlnode/xmltok_impl.c:895-921 | the same for "%" in the prolog |
| XmlScan.ScanPoundName | xmlnode/xmltok_impl.c:924-948 | the same for "#" names |
| XmlScan.ScanLit | xmlnode/xmltok_impl.c:951-980 | the same for literals of the prolog |
| XmlScan.ScanProlog | xmlnode/xmltok_impl.c:983-1208 | prologTok as a whole |
| XmlTok.ContentTok | xmlnode/xmltok_impl.c:796-892 | a content token takes at least one byte and ends inside the buffer |
| XmlTok.LtTok | xmlnode/xmltok_impl.c:697-793 | behind "<" and a name start character every token is a start tag or an empty element |
| XmlTok.CdataSectionTok | xmlnode/xmltok_impl.c:317-391 | a token is data, a newline or the end of the section, and takes at least one byte inside the buffer |
| XmlTok.PrologTok | xmlnode/xmltok_impl.c:983-1208 | a prolog token other than the start of the document element takes at least one byte inside the buffer |
| XmlShapes.EntityRefShape | xmlnode/xmltok_impl.c:507-534 | contentTok returns an entity reference exactly at "&", a name and ";" |
| XmlShapes.CharRefShape | xmlnode/xmltok_impl.c:443-504 | and a character reference exactly at "&#" or "&#x", digits and ";" |
| XmlShapes.EndTagShape | xmlnode/xmltok_impl.c:395-440 | an end tag exactly at "</", a name, white space and ">" |
| XmlShapes.NewlineShape | xmlnode/xmltok_impl.c:816-826 | a line end exactly at a line feed, or a carriage return with the line feed behind it |
| XmlShapes.CdataOpenShape | xmlnode/xmltok_impl.c:299-314 | the start of a CDATA section exactly at "<![CDATA[" |
| XmlShapes.CommentShape | xmlnode/xmltok_impl.c:107-140 | a comment exactly at "<!--", characters without two hyphens, and "-->" |
| XmlShapes.PiShape | xmlnode/xmltok_impl.c:192-296 | a processing instruction, or a declaration of XML, exactly at its delimiters, by its target |
| XmlTagShapes.StartTagShape | xmlnode/xmltok_impl.c:537-793 | a start tag, or an empty-element tag, exactly at "<", a name, attributes with quoted values, and ">" or "/>" |
| XmlTagShapes.TagIsRead | xmlnode/xmltok_impl.c:1376-1469 | with the attributes at the places of their names and values |
| XmlTagShapes.DataShape | xmlnode/xmltok_impl.c:840-890 | character data is the longest run of characters that is neither markup nor "]]>" |
| XmlTagShapes.SectionShape | xmlnode/xmltok_impl.c:317-391 | the tokens of a CDATA section: "]]>", line ends, and the longest runs of data |
| XmlPrologShapes.WordShape | xmlnode/xmltok_impl.c:1103-1207 | prologTok returns names and name tokens exactly where they are, with the indicator of occurrence behind them |
| XmlPrologShapes.MarkShape | xmlnode/xmltok_impl.c:1051-1101 | the punctuation of the prolog, with what has to follow a parenthesis |
| XmlPrologShapes.LiteralShape | xmlnode/xmltok_impl.c:951-980 | literals exactly at their quotes, in front of what may follow one |
| XmlPrologShapes.DeclOpenShape | xmlnode/xmltok_impl.c:145-189 | the start of a declaration exactly at "<!" and letters, with what may follow them |
| XmlPrologShapes.PrologSpaceShape | xmlnode/xmltok_impl.c:1029-1062 | white space of the prolog is the longest run of it, up to a carriage return at the end of the buffer |
| XmlTokLaws.ContentWindow | xmlnode/xmltok_impl.c:796-892 | a content token other than character data, and every error, is the same at the same place of every longer buffer |
| XmlTokLaws.CdataSectionWindow | xmlnode/xmltok_impl.c:317-391 | the same inside CDATA sections |
| XmlTokLaws.PrologWindow | xmlnode/xmltok_impl.c:983-1208 | the same for every prolog token other than white space |
| XmlTokLaws.AttsWindow | xmlnode/xmltok_impl.c:537-694 | the attributes of a start tag are scanned the same in a longer buffer once the tag is delimited |
| XmlTokLaws.LtWindow | xmlnode/xmltok_impl.c:697-793 | delimited markup is the same in a longer buffer |
| XmlTokLaws.PrefixStability | xmlnode/xmltok_impl.c:796-892 | contentTok on s and on s + t: delimited tokens and errors are equal, character data grows or runs into "]]>" at known bytes |
| XmlTokLaws.DataContinues | xmlnode/xmltok_impl.c:840-890 | character data that was cut off goes on in a longer buffer from where it was cut |
| XmlTokLaws.DataStops | xmlnode/xmltok_impl.c:857-876 | a run of character data fails only at "]]>" |
| XmlTokLaws.CdataDataContinues | xmlnode/xmltok_impl.c:363-390 | the same in a CDATA section |
| XmlTokLaws.PrologSpaceContinues | xmlnode/xmltok_impl.c:1029-1062 | white space that was cut off goes on where it was cut |
| XmlTokLaws.PrologSpaces | xmlnode/xmltok_impl.c:983-1208 | which results of prologTok are white space, or a carriage return at the end of the buffer |
| XmlAtts.GetAttsHalts | xmlnode/xmltok_impl.c:1376-1469 | on a start tag that contentTok accepts, getAtts stops before the end of the tag with exactly the attributes of the lexical grammar |
| XmlAtts.GetAtts | xmlnode/xmltok_impl.c:1380-1469 | the loop counts all attributes of the tag and fills the array in place with as many as it holds, positions and normal form included |
| XmlAtts.TagIsContent | xmlnode/xmltok_impl.c:697-793 | contentTok returns a start tag exactly at "<", a name start character and a well-formed rest |
| XmlAttValue.ScanAttributeValue | xmlnode/xmltok_impl.c:1211-1266 | attributeValueTok returns the token of the grammar of attribute values |
| XmlAttLaws.NormalizedFastPath | xmlnode/xmlparse.c:1524-1555 | for an attribute left normalized the raw bytes are the CDATA value, and the tokenized value exactly if no lead byte hides a space |
| XmlHiddenSpace.HiddenSpaceExample | xmlnode/xmlparse.c:1524-1555 | a start tag that contentTok accepts and whose value getAtts marks as normalized: storeAtts stores its four bytes, storeAttributeValue would store three |
| XmlHiddenSpace.HiddenBlanksExample | xmlnode/xmlparse.c:1524-1555 | a start tag that contentTok accepts, for which both storeAtts and storeAttributeValue give a tokenized value with two blanks in a row, and a value of which a blank is left at the end |
| XmlAttLaws.TokenizedValue | xmlnode/xmlparse.c:2326-2460 | what storeAttributeValue makes of a tokenized value, with all its entities expanded, has no blank at either end and no two in a row exactly if no lead byte, of the value or of an entity that is expanded, swallows two blanks |
| XmlAttLaws.WholeHidesNothing | xmlnode/xmltok_impl.c:1220-1230 | where no character has the byte of a blank behind its first byte, no blanks are swallowed |
| XmlHiddenSpace.TokenizedStored | xmlnode/xmlparse.c:1524-1555 | the same condition for what storeAtts stores: for a value that counts as normalized also no blank is swallowed in front of another or at the end |
| XmlAttLaws.NormalizedIsPlain | xmlnode/xmltok_impl.c:1430-1445 | what the flag normalized means for the bytes of a value |
| XmlDtd.ComputeCharRefNumber | xmlnode/xmltok_impl.c:1472-1509 | the loop returns the number of a reference, which XmlCharRefs.ReferenceValue describes, or a negative one when it leaves the range of characters or names none |
| XmlDtd.CharRefNumber | xmlnode/xmltok.c:1083-1098 | a number that is returned is a character that XML allows |
| XmlCharRefs.ReferenceValue | xmlnode/xmltok_impl.c:1472-1509 | the number of a reference is the one that its digits have by their places, decimal or hexadecimal, in both cases; None exactly if that is no character of XML 1.0 |
| XmlCharRefs.NumberReadsBack | xmlnode/xmltok_impl.c:1472-1509 | every number that is printed in either notation, with any zeros in front, is read back, if it is a character |
| XmlCharRefs.PredefinedNames | xmlnode/xmltok_impl.c:1511-1562 | the five names of predefined entities, and no others, have their characters |
| Transcode.Round8 | xmlnode/xmltok.c:1101-1135 | a round of utf8_toUtf16 at the bytes of XmlUtf8Encode for a character writes the units of XmlUtf16Encode for it |
| Transcode.Round16 | xmlnode/xmltok.c:1137-1152 | a round of toUtf8 at the units of XmlUtf16Encode, in either byte order, writes the bytes of XmlUtf8Encode |
| Transcode.RoundTrip | xmlnode/xmltok.c:289-326 | every text goes from UTF-8 to UTF-16 and back, and the other way round |
| TranscodeLaws.Utf8Layout | xmlnode/xmltok.c:1101-1135 | the bytes of a character have its bits in the layout of RFC 3629, in the shortest form |
| TranscodeLaws.Utf16Layout | xmlnode/xmltok.c:1137-1152 | the units of a character have its bits in the layout of RFC 2781 |
| TranscodeLaws.CopiesWhole | xmlnode/xmltok.c:270-287 | the exact condition for utf8_toUtf8 to copy whole characters; with room it always makes progress |
| TranscodeLaws.CutExample | xmlnode/xmltok.c:270-287 | a character with room for it of which only the first byte is copied |
| Transcode.Utf8ToUtf16 | xmlnode/xmltok.c:289-326 | the loop writes the UTF-16 form of whole characters, and stops only at the end or without room |
| Transcode.Utf16ToUtf8 | xmlnode/xmltok.c:483-544 | the loop writes the UTF-8 form of whole characters, stops at the first one without room, and always makes progress in a buffer of four bytes |
| Transcode.ReportInPieces | xmlnode/xmlparse.c:1781-1790 | character data that is converted through a small buffer is reported completely |
| XmlParse.Run | xmlnode/xmlparse.c:1036-1467 | terminates for every entity table, mutually recursive ones included; pauses inside the buffer and only without the final flag, and keeps the elements that were open at the start of the text |
| XmlParse.ContentTurn | xmlnode/xmlparse.c:1057-1462 | a round moves forward inside the buffer or ends the call |
| XmlParse.EntityTurn | xmlnode/xmlparse.c:1103-1182 | a reference goes on behind itself, at the depth of the reference or deeper, or is an error; XmlEntities.InternalReference and OtherReference say with which events |
| XmlEntities.InternalReference | xmlnode/xmlparse.c:1103-1182 | a reference to an internal entity that is not open has the events, or the error, of a run over its replacement text in the internal encoding, at the depth of the reference and with the entity open, and then those of what is behind it |
| XmlEntities.OtherReference | xmlnode/xmlparse.c:1103-1182 | any other reference: a predefined character, nothing, or the error for unknown, open and unparsed entities |
| XmlEntities.TextRuns | xmlnode/xmlparse.c:1036-1467 | a run over a text that is complete, and does not end inside of a token, is the beginning of a run with more behind it |
| XmlEntities.Substitution | xmlnode/xmlparse.c:1132-1160 | the document with the replacement text in place of the reference has the same outcome and merged events, where the text is complete content of the same encoding |
| XmlRounds.MarkupRuns | xmlnode/xmlparse.c:1057-1462 | the events of character data, line ends, comments, processing instructions and CDATA sections, each in front of those of the rest |
| XmlRounds.CharRefRuns | xmlnode/xmlparse.c:1351-1363 | a character reference is reported as the UTF-8 form of the number that its digits have |
| XmlRounds.StartTagRuns | xmlnode/xmlparse.c:1183-1309 | a start tag opens its element, with exactly the attributes of XmlStored.StoredExactly; an empty-element tag closes it again |
| XmlRounds.EndTagRuns | xmlnode/xmlparse.c:1309-1350 | an end tag closes the innermost element, or is an error: another name, or an element from outside of the entity |
| XmlRounds.ContentStops | xmlnode/xmlparse.c:1061-1103 | what is left to the next call, and what the end of the text means in each place |
| XmlRounds.SectionRuns | xmlnode/xmlparse.c:1733-1822 | the events and errors of a CDATA section |
| XmlRounds.EpilogRuns | xmlnode/xmlparse.c:2269-2323 | behind the document element there may be white space, comments and processing instructions only |
| XmlAttValue.StepAt | xmlnode/xmlparse.c:2347-2455 | a round of appendAttributeValue moves forward inside the value |
| XmlValueText.InternalInValue | xmlnode/xmlparse.c:2402-2452 | a reference to an internal entity in a value adds what its replacement text adds, in the internal encoding and with the entity open |
| XmlValueText.OtherInValue | xmlnode/xmlparse.c:2402-2452 | any other reference adds its character, nothing, or is an error |
| XmlValueText.ValueOfPieces | xmlnode/xmlparse.c:2341-2460 | a value in two pieces adds what the pieces add one after the other, where the first ends with a whole character and line end |
| XmlValueText.SubstitutionInValue | xmlnode/xmlparse.c:2402-2452 | the value with the replacement text in place of the reference is the same, where the encodings agree |
| XmlValueText.CharInValue | xmlnode/xmlparse.c:2387-2391 | characters are added as they are |
| XmlValueText.SpaceInValue | xmlnode/xmlparse.c:2392-2401 | a white space, a line end being one, adds a blank, unless the value is tokenized and a blank or nothing is in front of it |
| XmlValueText.CharRefInValue | xmlnode/xmlparse.c:2361-2386 | a character reference adds its character, a blank of a tokenized value by the same rule |
| XmlValueText.ValueStops | xmlnode/xmlparse.c:2351-2360 | a "<" is an error, and a value ends where its bytes end |
| XmlStored.DeclaredType | xmlnode/xmlparse.c:1526-1536 | the type of an attribute is that of its first declaration, and CDATA without one |
| XmlStored.StoredExactly | xmlnode/xmlparse.c:1511-1597 | the attributes of an element are the specified ones in order and then, in the order of declarations, the first declared default of every name that is not there yet, no name twice; or the error of the first one that is refused |
| XmlStored.DuplicateFails | xmlnode/xmlparse.c:1517-1521 | a name that is specified again is an error, if everything in front of it can be stored |
| XmlTurnLaws.RunShift | xmlnode/xmlparse.c:1036-1467 | parsing on from the middle of a buffer is parsing the rest as a buffer of its own |
| XmlTurnLaws.LexemeTurnWindow | xmlnode/xmlparse.c:1103-1458 | what a token does to the parser does not depend on the bytes behind it |
| XmlTurnLaws.TagTurnWindow | xmlnode/xmlparse.c:1183-1309 | name, attributes and their values of a start tag do not depend on the bytes behind it |
| XmlChunks.ContentDataJoins | xmlnode/xmlparse.c:1430-1450 | character data may be cut anywhere between two characters |
| XmlChunks.EpilogCrJoins | xmlnode/xmlparse.c:2270-2323 | a carriage return at the end of a buffer is passed over after the document element |
| XmlChunks.RunSplits | xmlnode/xmlparse.c:1036-1467 | a run that pauses on the first part of a text is the beginning of a run on all of it, and one that fails there fails with the same error |
| XmlChunks.FeedSplits | xmlnode/xmlparse.c:747-853 | the bytes left over by a call and the new bytes are together the rest of the document |
| XmlChunks.ChunkIndependence | xmlnode/xmlparse.c:747-853 | for every cut of a text into calls: success exactly when one call succeeds, the same error, the same final state, and the same events once adjacent character data is joined |
| XmlMerged.SameMerged | xmlnode/xmlparse.c:1430-1450 | two lists of events are the same after joining exactly if they have the same bytes of character data and the same other events, in order |
| XmlMerged.ChunksAreInvisible | xmlnode/xmlparse.c:747-853 | so a client that takes character data byte by byte sees the same for every cut |
| XmlNesting.RunNests | xmlnode/xmlparse.c:1073-1350 | in every run the events replay to the tag stack, wherever the run stops |
| XmlNesting.EntityIsBalanced | xmlnode/xmlparse.c:1132-1160 | the events of an entity that is expanded start and end their own elements only, and the tag stack is as before |
| XmlNesting.DocumentNests | xmlnode/xmlparse.c:747-853 | the events of all calls of an accepted document are one element, nested by name, and what may follow it |
| XmlMatching.EndHasStart | xmlnode/xmlparse.c:1309-1350 | in events that replay, every end of an element is paired with a start of the same name, with as many starts as ends in between |
| XmlMatching.DocumentMatches | xmlnode/xmlparse.c:747-853 | so it is for every accepted document, however it is cut, and all elements are ended |
| XmlNesting.ReplayKeeps | xmlnode/xmlparse.c:1310-1350 | events above a floor leave the elements below it |
| XmlParser.Parser.AppendAttributeValue | xmlnode/xmlparse.c:2341-2460 | the pool gets the value of the specification, and the flags of open entities are as before on every exit |
| XmlParser.Parser.AppendEntity | xmlnode/xmlparse.c:2402-2452 | the same for one reference, with the flag set during the expansion |
| XmlParser.Parser.StoreAttributeValue | xmlnode/xmlparse.c:2326-2339 | the same, without a space at the end of a tokenized value |
| XmlParser.Parser.StoreAttributes | xmlnode/xmlparse.c:1472-1600 | the attribute list of a start tag, which XmlStored.StoredExactly describes: duplicates refused and defaults added |
| XmlParser.Parser.StoreDefaults | xmlnode/xmlparse.c:1574-1595 | the loop over the declarations adds the values of those whose name is not there yet |
| XmlParser.Parser.GetAttributes | xmlnode/xmlparse.c:1513-1522 | after the second call of getAtts all attributes of the tag are in the array |
| XmlParser.Parser.StartTag | xmlnode/xmlparse.c:1183-1309 | start tags and empty elements change stack, level and events as the round says |
| XmlParser.Parser.EndTagToken | xmlnode/xmlparse.c:1310-1350 | an end tag takes the innermost element from the stack if the names are byte-equal |
| XmlParser.Parser.EntityToken | xmlnode/xmlparse.c:1103-1182 | a reference in content, with the recursive call of doContent on the replacement text, as XmlEntities.InternalReference says; the flags are as before on every exit |
| XmlParser.Parser.DoContent | xmlnode/xmlparse.c:1036-1467 | the loop gives the result, the state and the events of the specification, and leaves the flags of open entities as found, errors included |
| XmlParser.Parser.DoCdataSection | xmlnode/xmlparse.c:1733-1822 | the same for a CDATA section, up to its end or the end of the buffer |
| XmlParser.Parser.CdataSectionProcessor | xmlnode/xmlparse.c:1716-1728 | the same, with content behind the section |
| XmlParser.Parser.EpilogProcessor | xmlnode/xmlparse.c:2269-2323 | the same after the document element |
| XmlParser.Parser.GetBuffer | xmlnode/xmlparse.c:826-863 | there is room for the new bytes, and the pending bytes are the same |
| XmlParser.Parser.ParseBuffer | xmlnode/xmlparse.c:805-824 | the processor sees the pending bytes and the new ones, and what it does not use stays pending |
| XmlParser.Parser.Parse | xmlnode/xmlparse.c:747-803 | the same for bytes of the client, in all three cases of the source |
| XmlParser.ParseChunks | xmlnode/xmlparse.c:747-863 | a client that hands in chunks gets the result of one call with the whole text, from the object itself |
| ContentModel.AcceptsGrammar | xmlnode/xmlrole.c:833-1062 | the automaton accepts exactly EMPTY, ANY, mixed content and groups to any depth that do not mix "," and "\|", and reports the roles of the content model |
| ContentModel.DeclAccepted | xmlnode/xmlrole.c:833-1062 | every declaration of the grammar is accepted, with its roles in order |
| ContentModel.ParseDecl | xmlnode/xmlrole.c:833-1062 | accepted tokens are those of a declaration of the grammar |
| ContentModel.ParseRest | xmlnode/xmlrole.c:1007-1045 | the rest of an accepted group has one connector |
| ContentModelLaws.DeclIsWritten | xmlnode/xmlrole.c:833-1062 | the tokens of a declaration are its text in the notation of section 3.2 of XML 1.0, with its connectors and indicators of occurrence |
| ContentModelLaws.DeclRoles | xmlnode/xmlrole.c:833-1062 | the roles that are reported for it, one for each token |
| ContentModelState.Declarations.OpenGroup | xmlnode/xmlparse.c:2202-2212 | the level indexes inside groupConnector, which keeps the outer connectors when it grows |
| ContentModelState.Declarations.Connect | xmlnode/xmlparse.c:2213-2226 | a group keeps one connector, and the other one is refused |
| ContentModelState.Declarations.ProcessToken | xmlnode/xmlrole.c:833-1062 | one token changes handler, level and connectors as the automaton on a stack says |
| ContentModelState.ReadDeclaration | xmlnode/xmlparse.c:2202-2226 | the loop over tokens succeeds exactly for the declarations of the grammar |
| DnsLaws.CompressedReads | dns/1035.c:127-184 | a compressed name reads back as the name, through pointers that each lead to a label in front of it |
| DnsLaws.RegisterIsGood | dns/1035.c:175-181 | every label that is remembered can be read as a suffix, at an offset that a pointer can hold |
| DnsLaws.NameAgrees | dns/1035.c:58-97 | a complete name does not depend on the header or on what is appended |
| DnsLaws.LongReads | dns/1035.c:14-46 | net2long undoes long2net |
| DnsLaws.ShortReads | dns/1035.c:4-34 | net2short undoes short2net |
| Dns.Offset | dns/1035.c:48-56 | the offset in a pointer is below 4096 |
| Dns.Pointer | dns/1035.c:160-163 | the offset of a pointer that is written is read back |
| DnsMessage.QuestionReads | dns/1035.c:268-292 | a question reads back |
| DnsMessage.FieldsRead | dns/1035.c:191-195 | name, type, class and time to live of a record read back |
| DnsMessage.RDataReads | dns/1035.c:197-350 | the data of a record reads back: addresses, names, services and raw bytes, with its length |
| DnsMessage.FlagsRead | dns/1035.c:249-256 | the header flags read back |
| DnsMessage.RoundTrip | dns/1035.c:236-372 | every message that fits is read back: id, flags, counts, questions and records of all sections in order, names with a dot behind each label |
| DnsOctets.HeaderOctets | dns/1035.c:352-372 | the header has the octets and bits of section 4.1.1 of RFC 1035 |
| DnsOctets.CompressedOctets | dns/1035.c:127-184 | a name is its labels, each with its length in front, up to the first suffix that the packet has, for which a pointer to its first place is written |
| DnsOctets.RegisteredStarts | dns/1035.c:175-181 | the places of the labels that were written out are remembered, in order, up to 18 of them |
| DnsOctets.AddedTwice | dns/1035.c:127-184 | a name that was added is two octets when it is added again, while there was place to remember it |
| DnsOctets.NameOctets | dns/1035.c:58-97 | how the octets of a name are read: lengths, pointers, and the end |
| DnsOctets.FieldOctets | dns/1035.c:294-301 | the octets of type, class and time to live, high ones first |
| DnsOctets.DataOctets | dns/1035.c:321-350 | the octets of addresses, names, services and raw bytes, with their length |
| DnsOctets.TypesOfData | dns/1035.c:203-230 | the numbers of the types whose data is read |
| DnsReading.PlaceOfPointer | dns/1035.c:48-56 | the place that two octets lead to, the highest one below 4096 if their bits mean more or are not those of a pointer |
| DnsReading.QuestionIs | dns/1035.c:267-274 | which octets are read as a question |
| DnsReading.RecordIs | dns/1035.c:186-234 | which octets are read as a record, and where it ends: by what is known of its type, or else by its length |
| DnsReading.PacketIs | dns/1035.c:236-283 | a packet is read as a message exactly if its first octets are the header with its flags and counts, and its sections are laid out one behind the other |
| DnsWire.DomainText | dns/1035.c:135-153 | the name that a text stands for is printed as the text with a dot at the end |
| DnsWire.LMatch | dns/1035.c:99-125 | terminates, and finds out whether the packet has the name at an offset, through all pointers |
| DnsWire.MakeLabel | dns/1035.c:130-152 | the labels of a name, or 0 for a name of 255 bytes and more |
| DnsWire.Message.Lookup | dns/1035.c:157-166 | the first remembered offset with the name |
| DnsWire.Message.Compress | dns/1035.c:154-168 | the first suffix that the packet has becomes a pointer |
| DnsWire.Message.RegisterLabels | dns/1035.c:175-181 | the labels that were written out are remembered, while there is room |
| DnsWire.Message.Host | dns/1035.c:127-184 | the compressed name is appended and its labels are remembered; a name that is too long changes nothing |
| DnsWire.Message.AddQd | dns/1035.c:285-292 | a question is appended; of one with a name that is too long, type and class alone |
| DnsWire.Message.RrAppend | dns/1035.c:294-301 | the fields of a record are appended, without its name if that is too long |
| DnsWire.Message.AddAn | dns/1035.c:303-307 | the same for an answer, which is counted |
| DnsWire.Message.AddNs | dns/1035.c:309-313 | the same for an authority record |
| DnsWire.Message.AddAr | dns/1035.c:315-319 | the same for an additional record |
| DnsWire.Message.RDataLong | dns/1035.c:321-325 | an address is appended |
| DnsWire.Message.RDataName | dns/1035.c:327-332 | a name is appended behind its length, which is filled in afterwards; length 0 for a name that is too long |
| DnsWire.Message.RDataSrv | dns/1035.c:334-342 | the same for a service, with length 6 for the numbers alone |
| DnsWire.Message.RDataRaw | dns/1035.c:344-350 | raw bytes are appended; length 0 for those that go beyond 4096 bytes |
| DnsWire.Message.FinishPacket | dns/1035.c:352-372 | the header goes in front of what was built, and nothing else changes |
| DnsParse.Label | dns/1035.c:58-97 | terminates on names whose pointers lead backwards, with the text of the name and the position behind it, or gives up exactly where the text is longer than 256 bytes |
| DnsParse.RrParse | dns/1035.c:186-234 | the records of a section, in order |
| DnsParse.MessageParse | dns/1035.c:236-283 | header and sections of a packet |
| DnsExchange.Exchange | dns/1035.c:236-372 | the calls that build a message, and message_parse on the packet, give the message |
| DnsMovingBase.MovingMatchFinds | dns/1035.c:99-125 | with the cursor as base _lmatch finds names written out as a whole, and the labels in front of a pointer if the comparison of the bytes behind succeeds |
| DnsMovingBase.MovingMatchSound | dns/1035.c:99-125 | the exact condition, for given unset bytes, for a match to be a name that the packet has |
| DnsMovingBase.MovingMatchRight | dns/1035.c:99-125 | for all contents of these bytes: the name is not what an earlier name has in front of a pointer |
| DnsMovingBase.MovingReads | dns/1035.c:127-184 | the bytes that _host writes are read as a name, whichever label it has chosen |
| DnsMovingBase.MovingNameRestored | dns/1035.c:127-184 | every content of the unset bytes gives a name that is read back exactly if neither the name nor a suffix of it is first found in front of a pointer |
| DnsMovingMessage.MovingPacket | dns/1035.c:285-317 | for every sequence of names and numbers that are added, the packet is read back as it was built, whatever the unset bytes are at each call, exactly if every name is decided when it is added |
| DnsMovingBase.ExampleIsBuilt | dns/1035.c:285-292 | the packet of the questions "x.b" and "a.b" |
| DnsMovingBase.MovingMatchExample | dns/1035.c:285-292 | behind them "a" is written as "a.b" if the unset byte is 0 or 0xC0, and as "a" if it is 1 |
| MdnsProbe.ProbeBeforeAnnounce | dns/mdnsd.c:537-572 | in every run a unique record is probing, once, exactly while its count is 1 to 4; the count is one more than its probes; it is queued or given as an answer only after exactly three |
| MdnsProbe.StepKeeps | dns/mdnsd.c:416-572 | every step keeps the lists disjoint and without duplicates, and the counts equal to the probes sent |
| MdnsProbe.GraduateKeeps | dns/mdnsd.c:540-558 | the first loop over the probe list leaves the records that have not been checked three times |
| MdnsProbeLaws.GraduateExact | dns/mdnsd.c:540-558 | the first loop takes exactly the records with three probes from the list, in place, and queues each of them for announcing, at once and with no tries |
| MdnsProbeLaws.OutProbeExact | dns/mdnsd.c:537-572 | when probes are due, those records are announced, and one probe asks for and carries all others, which are counted; nothing else changes |
| MdnsProbeLaws.AnswersExact | dns/mdnsd.c:493-530 | which records a call answers, from all three lists, and what it does to each record: tries, lists, and freeing |
| MdnsProbeLaws.CallExact | dns/mdnsd.c:463-572 | a call with answers leaves probing alone, and any other one sends the probe that is due |
| MdnsProbeLaws.ProbingProgresses | dns/mdnsd.c:537-572 | in every run a record that is not removed counts every call that is free for probes when they are due |
| MdnsProbeLaws.FourthCallAnnounces | dns/mdnsd.c:540-558 | the call behind its third probe queues it for announcing at once |
| MdnsProbeLaws.ProbedIsAnnounced | dns/mdnsd.c:496-524 | in every run a record that was probed three times, and is no longer probing, is queued for announcing unless it was sent four times, or was removed |
| MdnsProbeLaws.AnnouncedIsSent | dns/mdnsd.c:496-524 | a call at its time, with room, sends what is queued for announcing |
| MdnsProbeLaws.QuestionQueues | dns/mdnsd.c:169-186 | a record that is asked for waits for an answer, and until when: at once, or after 20 to 119 microseconds for a shared one |
| MdnsProbeLaws.WaitingIsAnswered | dns/mdnsd.c:493-530 | the call at that time, with room for all, sends the answer |
| MdnsProbeLaws.MadeExact | dns/mdnsd.c:690-718 | a unique record is on the probe list and the next probe due at once; a shared one is on no list |
| MdnsProbeLaws.RemovedExact | dns/mdnsd.c:720-735 | a record that is removed while it is probing is gone, and any other one is sent once more as gone |
| MdnsProbeLaws.GoneIsFreed | dns/mdnsd.c:351-367 | a record that is gone is freed by the call that sends it |
| MdnsProbe.NextProbeTime | dns/mdnsd.c:537-572 | behind a probe the next one can be sent exactly when a record waits and the clock has reached the later-written of two times, 250 ms after the first probe or the last unique record that was added |
| MdnsProbe.ProbeSpacingExact | dns/mdnsd.c:566-571 | two probes are 250 ms apart for every clock exactly if no unique record is added in between too early, or nothing waits |
| MdnsProbe.ProbeSpacing | dns/mdnsd.c:566-571 | so they are if no unique record is added between them |
| MdnsProbe.ProbeSpacingFails | dns/mdnsd.c:707-718 | a run with two probes at the same clock |
| MdnsProbeState.Mdnsd.RPublish | dns/mdnsd.c:160-167 | a record that is not probing is queued for publishing, once |
| MdnsProbeState.Mdnsd.RSend | dns/mdnsd.c:169-186 | where a record is queued for an answer |
| MdnsProbeState.Mdnsd.RemoveRecord | dns/mdnsd.c:720-735 | a probing record leaves its list, another one is sent once more |
| MdnsProbeState.Mdnsd.AddUnique | dns/mdnsd.c:707-718 | a unique record starts probing at once |
| MdnsProbeState.Mdnsd.ROut | dns/mdnsd.c:351-367 | the records with room are sent from the front of the list, and freed if they are gone |
| MdnsProbeState.Mdnsd.PublishRetries | dns/mdnsd.c:496-524 | records stay on the list for four tries, and the order is kept |
| MdnsProbeState.Mdnsd.PublishChecked | dns/mdnsd.c:540-558 | records that have been checked three times are taken from the probe list and queued for announcing, as MdnsProbeLaws.GraduateExact says |
| MdnsProbeState.Mdnsd.CountChecks | dns/mdnsd.c:559-565 | every record that is left is counted once |
| MdnsProbeState.Mdnsd.MdnsdOut | dns/mdnsd.c:463-572 | a call sends answers, or else a probe, and changes the lists and times as the state machine says, and as MdnsProbeLaws.AnswersExact and CallExact say record by record |
| MdnsQuery.StartIsGood | dns/mdnsd.c:370-381 | a daemon that was just made meets what the laws of runs ask for |
| MdnsQuery.NothingMissed | dns/mdnsd.c:574-610 | in every run each query with a next time is covered by checkqlist, and one that is due and was asked less than three times is asked by the next look |
| MdnsQuery.AtMostThree | dns/mdnsd.c:580-608 | in every run a query is asked at most three times before it starts over |
| MdnsQuery.ResetIsLeast | dns/mdnsd.c:202-210 | the next time after a reset is seven seconds before the first cached answer expires, or none |
| MdnsQueryLaws.ExpireExact | dns/mdnsd.c:259-279 | exactly the entries of the hash list whose time has come leave the cache, each with its multiplicity, and the others keep their order |
| MdnsQueryLaws.CheckCache | dns/mdnsd.c:587-596 | a look at the questions takes from the cache exactly the expired entries in the hash lists of queries that start over |
| MdnsQueryLaws.CheckQuery | dns/mdnsd.c:581-608 | what a look does to each query: it waits one, two and three seconds for its next try, and after three tries it starts over, seven seconds before the first unexpired answer that the cache has |
| MdnsQueryLaws.AskedExact | dns/mdnsd.c:581-583 | the questions that are asked are those of the queries that are due and were asked less than three times |
| MdnsQueryLaws.CheckTimer | dns/mdnsd.c:578-609 | the timer is set to the first of these times |
| MdnsQueryLaws.LearnedIsRefreshed | dns/mdnsd.c:202-210 | a query that starts over while the cache knows an answer is asked again before that answer expires |
| MdnsQuery.CheckKeeps | dns/mdnsd.c:574-610 | the two loops over qlist keep every query scheduled |
| MdnsQueryState.Daemon.ResetQuery | dns/mdnsd.c:202-210 | the loop over the cache finds that time |
| MdnsQueryState.Daemon.ExpireEntries | dns/mdnsd.c:259-279 | exactly the expired entries of a hash list leave the cache, as MdnsQueryLaws.ExpireExact says |
| MdnsQueryState.Daemon.CheckQuestions | dns/mdnsd.c:574-610 | both loops, with the questions that are asked; MdnsQueryLaws.CheckQuery, CheckCache and CheckTimer say what they do to each query, the cache and the timer |
| MdnsQueryState.Daemon.AddQuery | dns/mdnsd.c:659-686 | a new query is due at once |
| Base64.RoundTrip | misc/b64.c:28-101 | byte strings that are encoded one by one and joined with new lines decode to their concatenation, whatever lies behind them in memory |
| Base64.ChunkRoundTrip | misc/b64.c:72-101 | one encoded byte string decodes to itself, in front of a new line or the end |
| Base64.CharValue | misc/b64.c:9-26 | the two tables are inverse |
| Base64Laws.TablesAreAlphabet | misc/b64.c:9-26 | both tables are the alphabet of RFC 4648, in its order, and every other byte has no value |
| Base64Laws.LineDecodes | misc/b64.c:28-68 | a line decodes to the whole bytes of the bits of its characters, whatever else is between them |
| Base64Laws.EncodesBlocks | misc/b64.c:72-101 | the characters that are written have the bits of the bytes, with the padding of the last block |
| Base64Laws.CanonicalText | misc/b64.c:72-101 | the text is that of RFC 4648 exactly if the bits that are taken from behind the input are 0 |
| Base64.DecodeInPlace | misc/b64.c:28-68 | the text is replaced by its bytes; the write position never passes the read position, and nothing behind the text changes |
| Base64.EncodeBlocks | misc/b64.c:72-101 | the blocks, the padding and the NUL |
| HashTable.NotThere | xmlnode/hashtable.c:67-72 | a free slot on the way means that no entry has the name |
| HashTable.Filled | xmlnode/hashtable.c:100-104 | an entry in the first free slot keeps every entry reachable without a gap |
| HashTable.HashIs | xmlnode/hashtable.c:44-50 | the hash of a name is the number that has its bytes as digits to the base 33, as far as 64 bits hold it |
| HashTable.Table.Search | xmlnode/hashtable.c:66-72 | the probe loop terminates, with the entry or the free slot |
| HashTable.Table.Grow | xmlnode/hashtable.c:75-98 | doubling keeps every entry |
| HashTable.Table.Lookup | xmlnode/hashtable.c:52-106 | the entry with the name, or a new one if asked for; the other entries stay |
| XmlPrint.UnescapeEscape | xmlnode/str.c:226-336 | strunescape undoes strescape, for every byte string and whatever the new buffer held |
| XmlPrint.RoomEnough | xmlnode/str.c:270-306 | the room that strescape asks for is enough, and it is the old length only where nothing is escaped |
| XmlPrintLaws.EscapedBetween | xmlnode/str.c:270-336 | each byte is replaced by itself or, if it is one of the five, by the reference of section 4.6 of XML 1.0, wherever it is |
| XmlPrintLaws.NoMarkup | xmlnode/str.c:270-336 | escaped text has no quotes and no brackets, and every ampersand starts a reference |
| XmlPrintLaws.PlainStays | xmlnode/str.c:226-267 | strunescape leaves text without ampersands as it is |
| XmlPrintLaws.ReferenceGoes | xmlnode/str.c:226-267 | a reference becomes its byte |
| XmlPrintLaws.AmpersandGoes | xmlnode/str.c:226-267 | any other ampersand is passed over, and a byte of the buffer stays as it was |
| XmlPrintLaws.TagText | xmlnode/xmlnode.c:168-189 | the bytes of tags and attributes |
| XmlPrint.Strescape | xmlnode/str.c:270-336 | both loops: the escaped text, in a new buffer unless nothing is escaped |
| XmlPrint.Strunescape | xmlnode/str.c:226-267 | the loop gives the unescaped text with a NUL behind it |
| XmlTree.SettleLinks | xmlnode/xmlnode.c:124-155 | after a walk the merged tree is linked, both ways, with the right last child, and nothing outside of it has changed |
| XmlTree.MergeLinked | xmlnode/xmlnode.c:124-155 | merging the text at the start of a list keeps the siblings behind it linked |
| XmlTree.PrintedMerged | xmlnode/xmlnode.c:191-238 | what is written during a walk is the text of the merged tree, at the top up to the first sibling with children |
| XmlTree.MergedPrints | xmlnode/xmlnode.c:124-155 | merging does not change what is printed exactly if in every run of text nothing would be printed for the pieces behind one with a NUL |
| XmlTree.NulExample | xmlnode/xmlnode.c:308-328 | two pieces that are printed as "ab" one by one, and as "a" when merged |
| XmlTree.PrintsNode | xmlnode/xmlnode.c:191-238 | the text is that of the node alone exactly if it has children or its following siblings print nothing |
| XmlTree.PrintsTree | xmlnode/xmlnode.c:191-238 | with no sibling behind the root, that is the text of the tree as it was exactly under the same condition |
| XmlTree.MergedTwice | xmlnode/xmlnode.c:579-592 | merging again changes nothing |
| XmlTree.InsertLinks | xmlnode/xmlnode.c:84-105 | a node that is inserted is the last child of its parent, and everything stays linked |
| XmlTreeLaws.InsertedLast | xmlnode/xmlnode.c:84-105 | the children of the parent are those it had and then the new one; every other node has its name, data, attributes and children as before |
| XmlTreeLaws.FirstTextIs | xmlnode/xmlnode.c:579-592 | the text of an element is the first one behind children that are elements |
| XmlTreeLaws.RunIs | xmlnode/xmlnode.c:124-155 | the text of a run is that of all its pieces in order, up to the next element or the end |
| XmlTreeState.Nodes.Merge | xmlnode/xmlnode.c:124-155 | both loops over the pieces, and the new links |
| XmlTree.FirstMergedLinks | xmlnode/xmlnode.c:579-592 | merging the first text of a list, wherever it is, keeps the list linked |
| XmlTreeState.Nodes.GetData | xmlnode/xmlnode.c:587-592 | the data of text with all pieces behind it, or of an attribute |
| XmlTreeState.Nodes.GetElementData | xmlnode/xmlnode.c:579-592 | for an element the search finds its first text, if there is any; it is merged, and the tree stays linked |
| XmlTreeState.Nodes.TagToString | xmlnode/xmlnode.c:168-189 | the loop over the attributes gives the start tag, the empty-element tag or the end tag |
| XmlTreeState.Nodes.NodeToSpool | xmlnode/xmlnode.c:191-238 | the walk with level and direction terminates, with the text and the nodes of the recursive definition |
| XmlTreeState.Nodes.NodeToString | xmlnode/xmlnode.c:684-687 | the text of the merged tree, which is that of the tree as it was exactly if nothing is lost behind a NUL; the merged tree is linked |
| XmlTreeState.Nodes.InsertTag | xmlnode/xmlnode.c:289-292 | an element is inserted below its parent, and the tree stays linked |
| XmlTreeState.Nodes.InsertCdata | xmlnode/xmlnode.c:308-328 | the same for text, which is a piece of its own |
| XmlPrintAtts.AttsRestored | xmlnode/xmlparse.c:1509-1579 | storeAtts on printed attributes gives their names, and their values with white space normalized as section 3.3.3 of XML 1.0 has it |
| XmlPrintTags.TagIn | xmlnode/xmltok_impl.c:697-793 | contentTok takes a printed start tag, or empty-element tag, as a whole |
| XmlPrintTags.EndTagIn | xmlnode/xmltok_impl.c:395-440 | the same for a printed end tag |
| XmlRoundTrip.TextGoes | xmlnode/xmlparse.c:1425-1450 | printed text is reported with its line ends normalized as section 2.11 of XML 1.0 has it, up to how it is cut, and with no "]]>" in it |
| XmlRoundTrip.ElemGoes | xmlnode/xmlparse.c:1188-1350 | a printed element, anywhere in a buffer, is reported as its events, normalized, and leaves the stack as it was |
| XmlRoundTrip.PrintedParses | xmlnode/xmlparse.c:747-853 | a printed tree, cut into chunks in any way, is accepted, with the events of the tree, its values and text normalized |
| XmlRestored.ComesBack | xmlnode/xmlparse.c:747-853 | however it is cut, the events are those of the tree as it was exactly if no value has white space but blanks and no text has line ends but line feeds |
| XmlRestored.MergedExactly | xmlnode/xmlnode.c:124-155 | the same for a tree with text in pieces: exactly if also nothing is lost behind a NUL |
| XmlRestored.MergedOk | xmlnode/xmlnode.c:124-155 | merging keeps text well formed where nothing is lost |
| XmlSaveLoad.SaveAndLoad | xmlnode/expat.c:86-115 | xmlnode2str on linked nodes and XML_Parse on its result: no error, and the events of the merged tree, normalized, which are those of the tree that was linked exactly under the condition of XmlRestored.MergedExactly |
| Namespaces.InnermostInScope | xmlnode/xmlparse.c:1700-1704 | the binding of a prefix is its innermost declaration, an empty one of the default prefix meaning none |
| NamespacesLaws.ScopeIs | xmlnode/xmlparse.c:1664-1711 | a name is in scope for a prefix exactly if the innermost declaration of the prefix has it, and it is not an empty default namespace |
| NamespacesLaws.AttributeIs | xmlnode/xmlparse.c:2707-2740 | which attribute names declare the default prefix or a prefix, use a prefix, or do neither |
| NamespacesState.Scopes.UriInScope | xmlnode/xmlparse.c:1604-1610 | in every valid state a prefix stands for what is in scope |
| NamespacesState.Scopes.OpenTag | xmlnode/xmlparse.c:1188-1263 | a start tag begins with the scope around it |
| NamespacesState.Scopes.AddBinding | xmlnode/xmlparse.c:1664-1711 | a declaration is in scope in the innermost tag only; the record comes from the free list or is new |
| NamespacesState.Scopes.CloseBinding | xmlnode/xmlparse.c:1338-1346 | one binding goes to the free list, and its prefix back to what it was |
| NamespacesState.Scopes.CloseTag | xmlnode/xmlparse.c:1338-1346 | an end tag restores every prefix to what it was outside; its bindings end in the reverse order |
| NamespacesState.Scopes.GetContext | xmlnode/xmlparse.c:2747-2813 | the entries for what is bound and what is open, in the order of the tables |
| NamespacesState.Scopes.SetContext | xmlnode/xmlparse.c:2815-2867 | the loop declares and opens what the entries say |
| NsContext.ReadsBack | xmlnode/xmlparse.c:2815-2867 | the entries are read as they were written exactly if none has a prefix with an empty name |
| NamespacesLaws.ContextBytes | xmlnode/xmlparse.c:2747-2813 | the bytes of each entry, and the form feed in front of it |
| NsContext.ContextRestored | xmlnode/xmlparse.c:2747-2867 | a parser that knows the same entities has the same in scope and open exactly if no prefix with an empty name is bound |
| NsContext.ScopeRestored | xmlnode/xmlparse.c:2747-2867 | the same in terms of declarations |
| NamespacesState.Inherit | xmlnode/xmlparse.c:513-567 | both methods on two parsers, with the same exact condition |
| NsExample.TagIsAccepted | xmlnode/xmltok_impl.c:697-793 | a start tag with the attribute "xmlns:" is accepted, and the attribute is stored |
| NsExample.DeclaresEmpty | xmlnode/xmlparse.c:2707-2719 | the attribute declares the prefix with the empty name |
| NsExample.EmptyPrefixExample | xmlnode/xmlparse.c:2747-2867 | the context with that binding is read as a default namespace |
| StringPool.Pool.Clear | xmlnode/xmlparse.c:3083-3101 | all blocks are free, none twice |
| StringPool.Pool.Grow | xmlnode/xmlparse.c:3178-3232 | there is more room; the unfinished string has its bytes, and every finished one its place and bytes; no block is on both lists |
| StringPool.Pool.AppendChar | xmlnode/xmlparse.c:249-252 | a byte is appended |
| StringPool.Pool.Finish | xmlnode/xmlparse.c:241-252 | the string is finished at its place |
| StringPool.Pool.Chop | xmlnode/xmlparse.c:241-252 | the last byte goes |
| StringPool.Pool.Convert | xmlnode/xmltok.c:269-287 | the bytes for which there is room are copied, without the continuation bytes at their end if that is not all of them |
| StringPool.Pool.Append | xmlnode/xmlparse.c:3125-3139 | the loop terminates, and all bytes are appended |
| StringPool.Pool.StoreString | xmlnode/xmlparse.c:3166-3176 | the bytes and a NUL are appended |
| StringPool.Pool.CopyString | xmlnode/xmlparse.c:3141-3150 | a C string is appended with its NUL, and finished |
| StringPool.Pool.CopyStringN | xmlnode/xmlparse.c:3152-3164 | so many bytes are appended and finished |

## Left out

- The content parser is modelled without namespace processing; bindings have a model of their own, and the names that are expanded with them, whose buffers may move, are left out.
- The prolog before the document element, apart from prologTok and element type declarations; the DTD is a parameter.
- Default handler, external entity handler, unknown encodings and positions of events for error messages.
- Allocation failure, and handlers that call back into the parser.
- The events of a run that fails: the source may report part of the character data in front of an error, depending on how the text was cut.
- Comments and processing instructions are reported as raw text; the normalization of their line ends is not modelled.
- Character data is one event per token; the source splits it when it has to convert it.
- XmlAttValue.AttributeValueTok: a character that is cut off at the end of a value ends the value, where the source reads on behind it; contentTok never accepts such a value, but the text of an entity may end so.
- XmlDtd.XmlError: the calls of abort() are an error value of their own.
- XmlParse.StoreAtts: the marks in front of attribute names are modelled by membership in the list that is built, and lookups in the tables of elements and attributes by maps.
- XmlParser.Parser: the names of open elements are values; the source points into the buffer for a final call and copies otherwise.
- DnsWire.Message.Host: names with empty labels or labels of more than 63 bytes, for which the source writes no valid name, are excluded by precondition, and so are packets that grow beyond MAX_PACKET_LEN, which the source does not check.
- DnsParse.Label: packets whose pointers do not lead backwards, on some of which the source does not terminate, and the cache of equal names.
- DnsParse.RrParse: the checks of the parse arena, and the dotted text of an address.
- MdnsProbe.Remove: a conflict is one removal step; the source goes on with the record it has freed.
- Shutdown, unicast replies, removal of queries, and setting data while an answer is queued in dns/mdnsd.c.
- MdnsProbe.Out: the room in a packet is a parameter, the number of records of each list that fit.
- MdnsQuery.Check: the known answers in a question message, and the callback of expired answers.
- HashTable.Table: entries are objects with a name only, and the mask with the size is the remainder; the iterator.
- StringPool.Pool: the pools of XmlParser.Parser are byte strings of their own, and not objects of this class.
- Transcode.Utf8ToUtf16: a character that needs two units and finds one is excluded by precondition; the source does not leave its loop then.
- DnsMovingBase.MovingNameRestored: for a cursor in the first half of the packet; behind it the reads at the moved base may leave the packet, which MovingMatchSound covers as an answer of its own.
- DnsMovingMessage.MovingPacket: for packets in the first half too; the numbers and names are in one sequence, in which the length of data is a number like any other, and the reader is given the widths.
- XmlTreeState.Nodes.GetData: path queries, comparing, wrapping and removing nodes are left out, and the spool is the text that it stands for.
- XmlRoundTrip.TreeOk: trees with names that the tokenizer reads as a whole, different attributes, and valid characters, for which the parser has no error; no attributes are declared. The handlers that build the tree again from the events are left out.
- Position updates for error messages.
