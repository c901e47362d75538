# DL structures, their parser and their writer

DL is a small text format for trees of typed structures. A struct has an
optional own value, a table of named fields, and, for every type name, a
queue of child structs in insertion order. A value is a number array, a
string array or an identifier. An identifier is a field that refers to
another field of the same struct.

This project models four parts of the DL engine:

- `DLValue`: the tagged value that grows on append and promotes numbers to
  strings.
- `DLStruct`: the struct with its field table and child queues.
- The recursive-descent parser inside `DLReader`. It runs `read()` over a
  token stream and fills an existing struct, as `apply` does.
- `DLWriter.export`, which prints a struct tree.

Each behaviour is given twice. First as functions over values: `Values`,
`Structs`, `Grammar` and `Writer`. Then as classes that update their
state in place: `ValueCells.Cell`, `StructNodes.StructNode` and
`Reader.Parser`. Every method of a class is proved to leave exactly the
state that the matching function computes.

The properties proved about the functions are these:

- Append algebra for values.
- Reference chasing for field lookup.
- The deep-copy and `copyInto` laws.
- The parse of each kind of statement: fields, children, archetype
  declarations and applications, and inheritance, including the error
  paths.
- The printed layout of a tree.
- A round trip. A writable tree is exported, the output is lexed, and
  the tokens are read into a new struct. The result is the tree's fields
  and children, with no error (`TreeRead.ExportReadBack`).

Modules, from the bottom up:

| module | what it holds |
|---|---|
| `Basics` | Option and Result, with the Java exceptions that the model raises. It also holds decimal text and `Join`. |
| `Numbers` | How an integral double is rendered. It covers Java's `d + ""`, the int-cast rule of `getString`, and the long-cast rule of the writer. |
| `Values` | `DLValue` as a datatype. |
| `ValueCells` | `DLValue` as a class: a tag and a backing array that each append replaces. |
| `Structs` | `DLStruct` as a datatype. It also holds the tree paths the parser uses to address the struct under construction. |
| `StructNodes` | `DLStruct` as a class. |
| `Tokens` | Tokens and the parser's error messages. |
| `Grammar` | One function per grammar rule, over the parser state: tree, struct stack, name stack, value stack, archetype table, cursor and error list. |
| `GrammarFacts` | What each kind of statement does to the tree. |
| `Reader` | `DLParser` as a class, with one method per rule. |
| `Writer` | `export` as a function that yields printed pieces. Each piece carries its text and the tokens a lexer reads from that text. |
| `RoundTrip` | A printed value reads back as itself. |
| `TreeRoundTrip` | The tokens of a printed tree. |
| `TreeRead` | Reading those tokens rebuilds the tree. |

## Model

Source paths are relative to the repository root.

| member | source | states |
|---|---|---|
| Basics.Tabs | src/com/blackrook/dl/DLWriter.java:109-112 | The indentation string is `n` tab characters for positive `n` and empty otherwise. |
| Numbers.WrittenLong | src/com/blackrook/dl/DLWriter.java:133-136 | When the writer prints a long, that long lies in the 64-bit range. |
| Numbers.ToLong | src/com/blackrook/dl/DLWriter.java:136 | The `(long)` cast saturates to the 64-bit range and is the identity inside it. |
| Numbers.CanonVersusRaw | src/com/blackrook/dl/DLValue.java:220-222 | For an int that has fewer than eight digits, getString's text has no fraction, and `d + ""` is that same text followed by ".0". |
| Numbers.WrittenLongExact | src/com/blackrook/dl/DLWriter.java:133-136 | The writer prints the number itself as a long exactly when it lies in the long range. |
| Numbers.RawShape | src/com/blackrook/dl/DLValue.java:78 | Java's `d + ""` starts with '-' exactly for a negative number, and ends in ".0" exactly when the magnitude is below 10^7. |
| Numbers.CanonShape | src/com/blackrook/dl/DLValue.java:220-222 | getString's text starts with '-' exactly for a negative number. In the int range it has no '.'; outside it, it is the raw `d + ""`. |
| Values.RawAll | src/com/blackrook/dl/DLValue.java:74-78 | Each number is rendered as Java's `d + ""`, in order. |
| Values.AppendNumbers | src/com/blackrook/dl/DLValue.java:58-86 | The kind is kept and an array grows by exactly the number of numbers: a number array keeps its elements and ends with the numbers, a string array keeps its elements and ends with their raw renderings. An identifier is unchanged. |
| Values.AppendStrings | src/com/blackrook/dl/DLValue.java:93-123 | Every array becomes a string array: its old elements, with numbers rendered raw, followed by the new strings. An identifier is unchanged. |
| Values.Copy | src/com/blackrook/dl/DLValue.java:627-639 | A copy has the same tag and the same elements. |
| Values.GetStringArray | src/com/blackrook/dl/DLValue.java:235-262 | The result has one entry per element. Numbers use the int-cast rendering, strings are copied, and an identifier gives its one text. |
| Values.GetString | src/com/blackrook/dl/DLValue.java:214-229 | The result is the first entry of getStringArray. It throws ArrayIndexOutOfBounds exactly when the value is empty. |
| Values.GetStringArrayN | src/com/blackrook/dl/DLValue.java:269-296 | The result has exactly `length` entries: the first min(length, size) are the elements and the rest are null. A negative length throws. An identifier ignores the length. |
| Values.ToStringShape | src/com/blackrook/dl/DLValue.java:641-648 | A one-element value prints as that element, and any other value prints in brackets. |
| Values.EqualsIsEquivalence | src/com/blackrook/dl/DLValue.java:663-666 | Equality by toString text is reflexive, symmetric and transitive. |
| Values.EqualsByText | src/com/blackrook/dl/DLValue.java:663-666 | Values with the same element texts are equal whatever their tags, and two one-element values are equal exactly when their texts are. |
| Values.NumberEqualsItsText | src/com/blackrook/dl/DLValue.java:663-666 | The int n equals the one-string value of its decimal text, although the two tags differ. |
| Values.AppendFourToStrings | src/com/blackrook/dl/DLValue.java:74-78 | Appending the number 4 to a string array adds "4.0", while getString renders 4 as "4". |
| Values.EqualsNotPreservedByAppend | src/com/blackrook/dl/DLValue.java:93-123 | Two equal values can become unequal after the same append. |
| Values.AppendNumbersTwice | src/com/blackrook/dl/DLValue.java:58-86 | Appending numbers in two calls gives the same value as appending them all in one call. |
| Values.AppendStringsTwice | src/com/blackrook/dl/DLValue.java:93-123 | Appending strings in two calls gives the same value as appending them all in one call. |
| Values.AppendsNeverDemote | src/com/blackrook/dl/DLValue.java:58-123 | Promotion is one way. A number array stays one exactly while only numbers are appended. No append shrinks a value. |
| ValueCells.Cell.OfNumbers | src/com/blackrook/dl/DLValue.java:22-31 | The new cell holds the number array. |
| ValueCells.Cell.OfStrings | src/com/blackrook/dl/DLValue.java:33-36 | The new cell holds the string array. |
| ValueCells.Cell.OfId | src/com/blackrook/dl/DLValue.java:38-45 | The new cell holds an identifier. |
| ValueCells.Cell.AppendNumbers | src/com/blackrook/dl/DLValue.java:58-86 | The cell's new contents are Values.AppendNumbers of its old contents. |
| ValueCells.Cell.AppendStrings | src/com/blackrook/dl/DLValue.java:93-123 | The cell's new contents are Values.AppendStrings of its old contents. |
| ValueCells.Cell.Copy | src/com/blackrook/dl/DLValue.java:627-639 | The result is a new cell with equal contents, and an array copy shares the backing array. |
| ValueCells.Cell.Share | src/com/blackrook/dl/DLValue.java:27-31 | The cell wraps the given arrays without copying them. |
| ValueCells.Cell.Strings | src/com/blackrook/dl/DLValue.java:235-262 | The result is a new array equal to Values.GetStringArray of the contents. |
| ValueCells.Cell.StringsOfLength | src/com/blackrook/dl/DLValue.java:269-296 | The result is Values.GetStringArrayN of the contents. |
| ValueCells.RenderCanon | src/com/blackrook/dl/DLValue.java:241-249 | The loop yields getStringArray of a number array. |
| ValueCells.PadTo | src/com/blackrook/dl/DLValue.java:276-290 | The new array of `length` entries holds the given entries first and nulls after them. |
| ValueCells.Extend | src/com/blackrook/dl/DLValue.java:64-70 | The new array is the old contents followed by the tail. |
| ValueCells.RenderRaw | src/com/blackrook/dl/DLValue.java:99-103 | The loop yields the raw rendering of every number. |
| Structs.GroupIndex | src/com/blackrook/dl/DLStruct.java:1861-1865 | The queue found is the first one filed under the type name. No result means no queue has that name. |
| Structs.SetValue | src/com/blackrook/dl/DLStruct.java:94-97 | Only the own value changes. |
| Structs.PutField | src/com/blackrook/dl/DLStruct.java:756-762 | The field is present exactly when the value is not null, and it then holds that value. Every other field, the own value and the children stay as they were. |
| Structs.AppendField | src/com/blackrook/dl/DLStruct.java:1061-1085 | A null argument does nothing. An absent field is put. A present field is appended to. |
| Structs.AppendValue | src/com/blackrook/dl/DLStruct.java:360-377 | Appending to a struct with no own value throws NullPointerException. A null argument does nothing. Otherwise the own value is appended to. |
| Structs.Chase | src/com/blackrook/dl/DLStruct.java:1813-1820 | Following identifiers either ends at a non-identifier value of the table, or ends at an absent name (Missing), or cycles. |
| Structs.ChaseVisited | src/com/blackrook/dl/DLStruct.java:1813-1820 | A chase that terminates gives the same answer from any smaller set of names already passed. |
| Structs.ChaseStep | src/com/blackrook/dl/DLStruct.java:1813-1820 | A field that holds identifier n reads the same as field n. A field that holds any other value reads as itself. |
| Structs.GetValue | src/com/blackrook/dl/DLStruct.java:1813-1820 | An absent field reads as null, and a present non-identifier field reads as itself. Any value found is a non-identifier value of the table. |
| Structs.ContainsFieldLookup | src/com/blackrook/dl/DLStruct.java:85-88 | A field containsField rejects reads as null; a contained non-identifier field reads as itself. |
| Structs.SelfReferenceDiverges | src/com/blackrook/dl/DLStruct.java:1817-1818 | A field that names itself makes getValue loop forever. |
| Structs.GetStringField | src/com/blackrook/dl/DLStruct.java:1172-1178 | The result is null for a missing field. Otherwise it is the field value's getString, including the throw. |
| Structs.GetStringOr | src/com/blackrook/dl/DLStruct.java:1213-1217 | The default is returned exactly for a missing field. |
| Structs.GetLong | src/com/blackrook/dl/DLStruct.java:1328-1334 | A missing field reads as 0. |
| Structs.GetLongOr | src/com/blackrook/dl/DLStruct.java:1371-1375 | The result is always getLong(name): a missing field reads as 0 and the default is never returned. |
| Structs.GetStructs | src/com/blackrook/dl/DLStruct.java:1861-1865 | The result is the type's queue, or empty when the type is unknown. |
| Structs.ContainsTypeQueue | src/com/blackrook/dl/DLStruct.java:1894-1897 | In a well-formed struct, a type is contained exactly when its queue is non-empty. |
| Structs.PutStruct | src/com/blackrook/dl/DLStruct.java:1884-1889 | A new queue is created only for a new type. The own value and the fields are kept. |
| Structs.PutStructChild | src/com/blackrook/dl/DLStruct.java:1884-1889 | The added child is last in its type's queue. |
| Structs.PutStructQueues | src/com/blackrook/dl/DLStruct.java:1884-1889 | Only the child's own queue changes, and the child is added at its end. |
| Structs.PutStructWF | src/com/blackrook/dl/DLStruct.java:1884-1889 | putStruct keeps a struct well formed: one non-empty queue per type. |
| Structs.CopyOwn | src/com/blackrook/dl/DLStruct.java:1846-1849 | The source's own value is taken only when present. Source fields overwrite, and all other fields stay. |
| Structs.CopyInto | src/com/blackrook/dl/DLStruct.java:1844-1854 | The target takes the source's own value when present and keeps its own otherwise. Its fields are its old ones overwritten by the source's. |
| Structs.CopyIntoQueues | src/com/blackrook/dl/DLStruct.java:1844-1854 | For every type, copyInto appends copies of the source's children after the target's. |
| Structs.CopyIdentity | src/com/blackrook/dl/DLStruct.java:1833-1838 | copy() of a well-formed struct is equal to it: a deep copy. |
| Structs.Copy | src/com/blackrook/dl/DLStruct.java:1833-1838 | A copy has the original's own value and fields. |
| Structs.CopyGroupsShape | src/com/blackrook/dl/DLStruct.java:1851-1853 | Copying every group into a struct with no children reproduces the groups. |
| Structs.ReplaceChild | src/com/blackrook/dl/DLReader.java:683-694 | Writing a child through a step replaces only that child. |
| Structs.NodeAtReplaceAt | src/com/blackrook/dl/DLReader.java:683-694 | Reading the struct a path leads to returns what was last written there. |
| Structs.ReplaceAtNodeAt | src/com/blackrook/dl/DLReader.java:683-694 | Writing a path's own struct back changes nothing. |
| Structs.ReplaceAtTwice | src/com/blackrook/dl/DLReader.java:683-694 | Of two writes at the same path, the second wins. |
| StructNodes.StructNode.constructor | src/com/blackrook/dl/DLStruct.java:46-49 | A new struct is empty. |
| StructNodes.StructNode.Set | src/com/blackrook/dl/DLStruct.java:94-97 | The new state is Structs.SetValue of the old one. |
| StructNodes.StructNode.Put | src/com/blackrook/dl/DLStruct.java:756-762 | The new state is Structs.PutField of the old one. |
| StructNodes.StructNode.Append | src/com/blackrook/dl/DLStruct.java:1061-1085 | The new state is Structs.AppendField of the old one. |
| StructNodes.StructNode.AppendValue | src/com/blackrook/dl/DLStruct.java:360-377 | It reports NullPointerException and changes nothing exactly when Structs.AppendValue throws. Otherwise it takes Structs.AppendValue's result. |
| StructNodes.StructNode.GetValue | src/com/blackrook/dl/DLStruct.java:1813-1820 | The while loop returns null exactly when the chase ends Missing, and otherwise returns the value the chase finds. |
| StructNodes.StructNode.GetStringOr | src/com/blackrook/dl/DLStruct.java:1213-1217 | The result is Structs.GetStringOr. |
| StructNodes.StructNode.GetNumberOfFields | src/com/blackrook/dl/DLStruct.java:1825-1828 | The result is always 0, because numFields is never updated. |
| StructNodes.StructNode.PutStruct | src/com/blackrook/dl/DLStruct.java:1884-1889 | The new state is Structs.PutStruct of the old one, and numStructs goes up by one. |
| StructNodes.StructNode.PutNewStruct | src/com/blackrook/dl/DLStruct.java:1872-1876 | An empty child is filed as Structs.PutStruct does. |
| StructNodes.StructNode.CopyInto | src/com/blackrook/dl/DLStruct.java:1844-1854 | The target's new state is Structs.CopyInto of the source and the target's old state. |
| StructNodes.StructNode.Copy | src/com/blackrook/dl/DLStruct.java:1833-1838 | The result is a new struct equal to Structs.Copy. |
| StructNodes.CopyOwnInto | src/com/blackrook/dl/DLStruct.java:1846-1849 | The value and field loop yields CopyOwn. |
| StructNodes.CopyQueueInto | src/com/blackrook/dl/DLStruct.java:1851-1853 | The queue loop yields the copy of one group. |
| Grammar.Strict | src/com/blackrook/dl/DLReader.java:326 | The token is consumed exactly when it is the expected one. Otherwise a type error is recorded. |
| Grammar.OpenChild | src/com/blackrook/dl/DLReader.java:321 | A new child is pushed on the struct stack, and the name stack, value stack, cursor and errors are kept. |
| Grammar.NumberToken | src/com/blackrook/dl/DLReader.java:668-681 | It succeeds exactly on a number token and pushes that number, negated if asked. Otherwise it records "Expected numerical value.". |
| Grammar.NumberRule | src/com/blackrook/dl/DLReader.java:659-665 | Success pushes exactly one one-element number array. Failure records the number error. |
| Grammar.StringArrayRule | src/com/blackrook/dl/DLReader.java:621-637 | Success changes only the top value, which stays a string array and does not shrink. Failure records a message. |
| Grammar.NumberArrayRule | src/com/blackrook/dl/DLReader.java:641-655 | Success changes only the top value, which stays a number array and does not shrink. Failure records a message. |
| Grammar.ArrayValues | src/com/blackrook/dl/DLReader.java:604-617 | Success pushes one non-empty literal. Failure records a message. |
| Grammar.ValueRule | src/com/blackrook/dl/DLReader.java:547-574 | Success consumes input and pushes one non-empty literal, leaving tree, stacks and table alone. Failure records a message. |
| Grammar.ValueListRest | src/com/blackrook/dl/DLReader.java:586-600 | Success only pushes values. |
| Grammar.ValueList | src/com/blackrook/dl/DLReader.java:577-582 | Success pushes at least one value. |
| Grammar.IdList | src/com/blackrook/dl/DLReader.java:520-531 | Success pushes at least one name and leaves everything else alone. |
| Grammar.IdListRest | src/com/blackrook/dl/DLReader.java:535-541 | Success only pushes names. |
| Grammar.ArchetypeDecl | src/com/blackrook/dl/DLReader.java:250-270 | Success empties the name stack and leaves tree, stacks and values alone. |
| Grammar.BindParams | src/com/blackrook/dl/DLReader.java:509-514 | The binding loop pops exactly the top i + 1 values and changes nothing but the tree. |
| Grammar.ArchetypeClause | src/com/blackrook/dl/DLReader.java:481-517 | Success restores the stacks and the value stack. |
| Grammar.LastMatch | src/com/blackrook/dl/DLReader.java:454-457 | The search settles on the last sibling whose own value equals the given one, or on none. |
| Grammar.InheritClause | src/com/blackrook/dl/DLReader.java:431-476 | Success restores the struct, name and value stacks. |
| Grammar.StructList | src/com/blackrook/dl/DLReader.java:216-245 | Success keeps the stacks and consumes input when there is any. |
| Grammar.StructDecl | src/com/blackrook/dl/DLReader.java:275-289 | Success consumes input and keeps the stacks. |
| Grammar.InnerStructList | src/com/blackrook/dl/DLReader.java:295-309 | Success keeps the stacks. |
| Grammar.StructTail | src/com/blackrook/dl/DLReader.java:317-376 | Success pops exactly the statement's name and keeps the struct and value stacks. |
| Grammar.ValueTail | src/com/blackrook/dl/DLReader.java:356-375 | Success pops exactly the statement's name and keeps the struct and value stacks. |
| Grammar.Block | src/com/blackrook/dl/DLReader.java:393-403 | Success pops the block's struct and name. |
| Grammar.StatementEndOrStruct | src/com/blackrook/dl/DLReader.java:384-426 | Success pops the struct being declared and its name. |
| Grammar.ReadLoop | src/com/blackrook/dl/DLReader.java:193 | Success reaches the end of the tokens with no new message and the stacks restored. |
| Grammar.Read | src/com/blackrook/dl/DLReader.java:188-209 | No message is recorded exactly when the loop succeeds. Otherwise the last message is "Expected valid structure.". |
| GrammarFacts.DeclIsTail | src/com/blackrook/dl/DLReader.java:275-289 | A declaration is its name, pushed, followed by its tail. |
| GrammarFacts.TailValue | src/com/blackrook/dl/DLReader.java:356-375 | A tail that starts with none of '{', ':' and '(' is a value statement. |
| GrammarFacts.TailBrace | src/com/blackrook/dl/DLReader.java:319-332 | '{' after a name opens a child of that type. |
| GrammarFacts.FieldStatement | src/com/blackrook/dl/DLReader.java:362-369 | `Name value ;` sets field Name of the current struct, overwriting it, and changes nothing else. |
| GrammarFacts.ValueChildStatement | src/com/blackrook/dl/DLReader.java:371-374 | `Name value` followed by anything but ';' files a new child of type Name, last in its queue, whose own value is the value. |
| GrammarFacts.BraceChildStatement | src/com/blackrook/dl/DLReader.java:319-332 | `Name { ... }` files an empty child of type Name last in its queue and parses the block into it. The closing brace restores the stacks. |
| GrammarFacts.IdListReads | src/com/blackrook/dl/DLReader.java:520-541 | `p1, ..., pn` pushes the names in order. |
| GrammarFacts.ArchetypeDeclaration | src/com/blackrook/dl/DLReader.java:221-242 | `.N(p1, ..., pn);` records N with parameters p1 to pn, replacing any earlier entry. It touches nothing else, and parsing goes on. |
| GrammarFacts.ParamListReads | src/com/blackrook/dl/DLReader.java:250-270 | The parameter list is stored under the bottom name in push order, and the name stack is emptied. |
| GrammarFacts.PeriodStatement | src/com/blackrook/dl/DLReader.java:221-242 | One archetype declaration is followed by the rest of the list. |
| GrammarFacts.BoundKeeps | src/com/blackrook/dl/DLReader.java:509-514 | Binding leaves every field that is not a bound parameter as it was. |
| GrammarFacts.BoundSets | src/com/blackrook/dl/DLReader.java:509-514 | Binding sets params[j] to the j-th value. Where a name repeats, the first position wins. |
| GrammarFacts.BindParamsFields | src/com/blackrook/dl/DLReader.java:509-514 | The binding loop writes exactly the bound fields into the current struct. |
| GrammarFacts.ArchetypeUndeclared | src/com/blackrook/dl/DLReader.java:494-501 | Applying an undeclared archetype fails after its ')', naming it. |
| GrammarFacts.ArchetypeTooManyValues | src/com/blackrook/dl/DLReader.java:503-507 | More values than parameters fails, naming the archetype and its parameter count. |
| GrammarFacts.ArchetypeApplication | src/com/blackrook/dl/DLReader.java:481-517 | `N(v1, ..., vk)` binds the values left-aligned to N's parameters in the new struct. Nothing else changes. |
| GrammarFacts.Inheritance | src/com/blackrook/dl/DLReader.java:431-476 | With no match, the clause fails naming the type and the value. Otherwise the last match is copied into the new struct, its own value is put back, and the stacks are restored. |
| GrammarFacts.Inherited | src/com/blackrook/dl/DLReader.java:463-468 | The inheriting struct keeps its own value and gets the found struct's fields over its own. Each of its queues is followed by the found struct's queue. |
| GrammarFacts.InheritFindsItself | src/com/blackrook/dl/DLReader.java:454-457 | In `T V : T V` the search settles on the struct being declared, even when an earlier sibling `T V` exists. Copying it into itself leaves the tree unchanged. |
| GrammarFacts.StringArrayRejectsNumber | src/com/blackrook/dl/DLReader.java:621-637 | After a string, a number in the array is rejected with "Expected string in string array.". |
| GrammarFacts.NumberArrayRejectsString | src/com/blackrook/dl/DLReader.java:641-655 | After a number, a string in the array is rejected with the number message. |
| GrammarFacts.EmptyArrayRejected | src/com/blackrook/dl/DLReader.java:604-617 | `[]` is not a value. |
| GrammarFacts.MinusNegates | src/com/blackrook/dl/DLReader.java:659-681 | A leading '-' negates the number after it. |
| GrammarFacts.EmptyInputFails | src/com/blackrook/dl/DLReader.java:188-209 | An empty token stream fails with "Expected valid structure." and leaves the struct as it was. |
| GrammarFacts.ReadStopsAtFailure | src/com/blackrook/dl/DLReader.java:193-207 | The first failing top-level statement ends the read. Its messages, followed by "Expected valid structure.", are thrown joined by newlines. |
| Reader.Parser.constructor | src/com/blackrook/dl/DLReader.java:178-186 | The parser starts with the target struct alone on the struct stack. |
| Reader.Parser.MatchStrict | src/com/blackrook/dl/DLReader.java:326 | The new state is Grammar.Strict's. |
| Reader.Parser.NumberToken | src/com/blackrook/dl/DLReader.java:668-681 | The outcome and new state are Grammar.NumberToken's. |
| Reader.Parser.Number | src/com/blackrook/dl/DLReader.java:659-665 | The outcome and new state are Grammar.NumberRule's. |
| Reader.Parser.StringArray | src/com/blackrook/dl/DLReader.java:621-637 | The outcome and new state are Grammar.StringArrayRule's. |
| Reader.Parser.NumberArray | src/com/blackrook/dl/DLReader.java:641-655 | The outcome and new state are Grammar.NumberArrayRule's. |
| Reader.Parser.ArrayValues | src/com/blackrook/dl/DLReader.java:604-617 | The outcome and new state are Grammar.ArrayValues'. |
| Reader.Parser.Value | src/com/blackrook/dl/DLReader.java:547-574 | The outcome and new state are Grammar.ValueRule's. |
| Reader.Parser.ValueListPrime | src/com/blackrook/dl/DLReader.java:586-600 | The outcome and new state are Grammar.ValueListRest's. |
| Reader.Parser.ValueList | src/com/blackrook/dl/DLReader.java:577-582 | The outcome and new state are Grammar.ValueList's. |
| Reader.Parser.IDList | src/com/blackrook/dl/DLReader.java:520-531 | The outcome and new state are Grammar.IdList's. |
| Reader.Parser.IDListPrime | src/com/blackrook/dl/DLReader.java:535-541 | The outcome and new state are Grammar.IdListRest's. |
| Reader.Parser.ArchetypeDecl | src/com/blackrook/dl/DLReader.java:250-270 | The outcome and new state are Grammar.ArchetypeDecl's. |
| Reader.Parser.PopParams | src/com/blackrook/dl/DLReader.java:262-265 | The array holds the names above the bottom one in push order, and only the bottom name is left. |
| Reader.Parser.ArchetypeClause | src/com/blackrook/dl/DLReader.java:481-517 | The outcome and new state are Grammar.ArchetypeClause's. |
| Reader.Parser.BindValues | src/com/blackrook/dl/DLReader.java:509-514 | The binding loop leaves Grammar.BindParams' state. |
| Reader.Parser.InheritClause | src/com/blackrook/dl/DLReader.java:431-476 | The outcome and new state are Grammar.InheritClause's. |
| Reader.Parser.ResolveInherit | src/com/blackrook/dl/DLReader.java:448-475 | The search, copy and error after the value give Grammar.InheritClause's outcome. |
| Reader.Parser.StructList | src/com/blackrook/dl/DLReader.java:216-245 | The outcome and new state are Grammar.StructList's. |
| Reader.Parser.StructDecl | src/com/blackrook/dl/DLReader.java:275-289 | The outcome and new state are Grammar.StructDecl's. |
| Reader.Parser.InnerStructList | src/com/blackrook/dl/DLReader.java:295-309 | The outcome and new state are Grammar.InnerStructList's. |
| Reader.Parser.OpenChild | src/com/blackrook/dl/DLReader.java:321 | `pushStruct(stackTop.putStruct(name))` leaves Grammar.OpenChild's state. |
| Reader.Parser.StructTail | src/com/blackrook/dl/DLReader.java:317-376 | The outcome and new state are Grammar.StructTail's. |
| Reader.Parser.ValueStatement | src/com/blackrook/dl/DLReader.java:356-375 | The outcome and new state are Grammar.ValueTail's. |
| Reader.Parser.FieldEnd | src/com/blackrook/dl/DLReader.java:364-367 | The field is stored and the name and value are popped. |
| Reader.Parser.ChildValue | src/com/blackrook/dl/DLReader.java:371-374 | Filing the valued child and finishing the statement gives Grammar.ValueTail's outcome. |
| Reader.Parser.Block | src/com/blackrook/dl/DLReader.java:395-403 | The outcome and new state are Grammar.Block's. |
| Reader.Parser.StatementEndOrStruct | src/com/blackrook/dl/DLReader.java:384-426 | The outcome and new state are Grammar.StatementEndOrStruct's. |
| Reader.Parser.Read | src/com/blackrook/dl/DLReader.java:188-209 | The tree and messages are Grammar.Read's, and the exception text is their join. |
| Reader.FindInherited | src/com/blackrook/dl/DLReader.java:454-457 | The sibling loop settles on Grammar.LastMatch. |
| Reader.JoinLines | src/com/blackrook/dl/DLReader.java:200-206 | The StringBuilder loop gives the messages joined by '\n'. |
| Reader.Apply | src/com/blackrook/dl/DLReader.java:79-84 | apply leaves Grammar.Read's tree. It throws exactly when the read loop fails, with the joined messages. |
| Writer.TabString | src/com/blackrook/dl/DLWriter.java:109-112 | The tabstr loop builds Tabs(tabs). |
| Writer.ElementsText | src/com/blackrook/dl/DLWriter.java:140-148 | Array elements print separated by ", " and closed by "]". |
| Writer.NumberFormat | src/com/blackrook/dl/DLWriter.java:133-136 | On the long range a number prints as its decimal text and lexes as itself. 2^63 prints as LONG_MAX. |
| Writer.FieldValueText | src/com/blackrook/dl/DLWriter.java:188-238 | An empty number field prints " 0" and an empty string field prints ` ""`. One element prints alone. Several elements print bracketed. |
| Writer.FieldLineText | src/com/blackrook/dl/DLWriter.java:188-238 | A field line is the indented name, the value, ";" and a newline. |
| Writer.Indentation | src/com/blackrook/dl/DLWriter.java:103-112 | The root's fields and a top-level child's fields are both indented by one tab, and each deeper level adds one. |
| Writer.ChildHeader | src/com/blackrook/dl/DLWriter.java:248-256 | A child's header is indented one tab more than its parent's and starts with its type. |
| Writer.IdOwnValueHeader | src/com/blackrook/dl/DLWriter.java:120-180 | An identifier own value prints nothing, not even the newline, and lexes like no own value. |
| Writer.EmptyStructText | src/com/blackrook/dl/DLWriter.java:101-105 | An empty root prints one blank line and no token. |
| Writer.FieldsOutFault | src/com/blackrook/dl/DLWriter.java:183-186 | The field loop completes exactly when every field's reference chain ends at a value. Otherwise it stops at the first field whose chain does not. |
| Writer.DanglingReference | src/com/blackrook/dl/DLWriter.java:185-186 | A reference to an absent field stops the export with a NullPointerException before its line is printed. |
| Writer.ReferencePrintsTarget | src/com/blackrook/dl/DLWriter.java:185 | A reference field prints the value of the field it names, under its own name. |
| RoundTrip.FieldValueLexed | src/com/blackrook/dl/DLWriter.java:188-238 | A printed field value lexes to the value's tokens. |
| RoundTrip.OwnLexed | src/com/blackrook/dl/DLWriter.java:120-178 | A printed own value lexes to its tokens. |
| RoundTrip.NumberReads | src/com/blackrook/dl/DLReader.java:659-681 | A printed long number reads back as itself. |
| RoundTrip.ValueReads | src/com/blackrook/dl/DLReader.java:547-574 | A printed value reads back as itself and consumes exactly its tokens. |
| TreeRoundTrip.HeaderLexed | src/com/blackrook/dl/DLWriter.java:116-181 | For a type name that is a Word, a header lexes to that name as one identifier, then the own value and '{'. |
| TreeRoundTrip.FieldLexed | src/com/blackrook/dl/DLWriter.java:188-238 | For a field name that is a Word, a field line lexes to that name, the value's tokens and ';'. |
| TreeRoundTrip.FieldsOutLexed | src/com/blackrook/dl/DLWriter.java:183-186 | The field loop over names of fields, each a Word holding a printable literal, prints those field lines in that order without fault. |
| TreeRoundTrip.StructOutLexed | src/com/blackrook/dl/DLWriter.java:107-261 | export prints a writable tree (every field and type name a Word, every value a printable literal) without fault. Its tokens are the child statement, or the root's body. |
| TreeRoundTrip.GroupsOutLexed | src/com/blackrook/dl/DLWriter.java:248-256 | When every child prints as its child statement, the child loop prints the groups in order, each in queue order, without fault. |
| TreeRoundTrip.QueueOutLexed | src/com/blackrook/dl/DLWriter.java:252-255 | When every child prints as its child statement, a queue's loop prints its children in queue order without fault. |
| TreeRoundTrip.ExportFault | src/com/blackrook/dl/DLWriter.java:101-105 | export completes without a fault exactly when getValue finds a value for every field of every struct in the tree. |
| TreeRoundTrip.StructOutFault | src/com/blackrook/dl/DLWriter.java:107-261 | A struct prints completely exactly when its fields and all of its descendants' fields resolve. |
| TreeRoundTrip.GroupsOutFault | src/com/blackrook/dl/DLWriter.java:248-256 | The child loop from a group on completes exactly when every child it visits resolves. |
| TreeRoundTrip.QueueOutFault | src/com/blackrook/dl/DLWriter.java:252-255 | A queue's loop from a child on completes exactly when every child it visits resolves. |
| TreeRead.PutAllSets | src/com/blackrook/dl/DLReader.java:362-369 | A run of field statements sets exactly those fields, the last statement for a name winning, and keeps the rest. |
| TreeRead.FieldsRead | src/com/blackrook/dl/DLReader.java:295-309 | The printed field lines read back as those fields. |
| TreeRead.ChildRead | src/com/blackrook/dl/DLReader.java:317-426 | A printed child is one statement that files it as the last child of its type. |
| TreeRead.BodyRead | src/com/blackrook/dl/DLReader.java:295-309 | A printed body read into a struct that has no fields or children yet gives exactly the body's fields and children. |
| TreeRead.GroupsRead | src/com/blackrook/dl/DLReader.java:295-309 | The printed children read back as the groups in order. |
| TreeRead.InnerToReadLoop | src/com/blackrook/dl/DLReader.java:193 | read()'s loop runs the same statements as a block and ends in the same state. |
| TreeRead.ExportReadBack | src/com/blackrook/dl/DLWriter.java:101-105 | A writable, non-empty tree (every field and type name a Word, every value a printable literal) prints without fault. Reading the print into a new struct gives back its fields and children with no error. |
| TreeRead.EmptyRootNotReadBack | src/com/blackrook/dl/DLReader.java:193-195 | A tree with no field and no child prints no token, and reading that print fails with "Expected valid structure.". |

## Left out

- The lexer (DLLexer and DLLexerKernel) and the Parser base class it
  feeds are not part of this model. The parser reads a sequence of
  tokens. A number token carries the magnitude of its lexeme, and a
  string token carries its text with escapes resolved.
- TreeRead.ExportReadBack: holds only for trees whose field and type
  names are Words (`Tokens.Word`: a letter or '_' followed by letters,
  digits and '_'). DLStruct's put and putStruct accept any string, and a
  name such as "", "a b", "x-y" or "1a" prints as text that does not
  read back as that one name. Since the lexer is not part of this model,
  the writer's pieces (`Writer.Piece`) record every printed name as one
  identifier token. That view is right only for Words, so the round-trip
  lemmas rely on it only for Words.
- TreeRoundTrip.HeaderLexed: covers only type names that are Words. For
  any other name, the printed header does not lex as one identifier, for
  the reason given above.
- TreeRoundTrip.FieldLexed: covers only field names that are Words, for
  the same reason.
- TreeRoundTrip.StructOutLexed: covers only trees whose field and type
  names are Words at every depth, for the same reason.
- TreeRoundTrip.GroupsOutLexed: covers only children whose type names
  are Words, for the same reason.
- Type errors use placeholder text. The text of `addTypeError` and the
  failed `matchTypeStrict` comes from the Parser base class, so the
  model records only the token types that were accepted.
- `#include` and the include-resource hooks are not modelled, because
  they belong to the lexer and to I/O.
- Numbers are integers. Doubles with a fraction, NaN and infinities are
  left out. `Numbers.Raw` renders Java's `d + ""` for an integral
  double, exactly as the source renders it, but only up to 2^53, where
  doubles stop being exact.
- `Values.GetStringArray` renders an identifier by its name. Java renders
  it with `toString()` of the backing `String[]`, which is an identity
  hash text, so `IdentityText` stands in for it.
- The key order of the field table and of the queue map is not
  modelled, because both are hash-table orders. The writer takes the
  field order as a parameter, `order`, and visits the groups in creation
  order. `TreeRead.ExportReadBack` holds for every field order that lists
  each key, and for the creation order of the groups only.
- Typed overloads are left out: the boolean, char, short, int, float,
  long and byte forms of put, append and the getters. So are every
  numeric getter, which parses strings with Double.parseDouble. They all
  reduce to the double and String forms. `Structs.GetLong` takes the
  value's own getLong as a parameter.
- The parser tree is a value. Java's `stackTop` and the struct stack
  are references into the tree, and the model replaces them with paths
  from the root (`Structs.Path`). `Reader.Parser` keeps the tree and
  the paths as fields.
- `currentValue.peek().append(...)` updates the array in place; the
  model replaces the top of the value stack.
- A `DLValue` shared between a field and the value stack is not
  modelled as aliasing. The values are immutable datatypes, and
  ValueCells shows that Java's appends replace the backing array and
  never write into it.
- `Common.withEscChars` is a parameter, `esc`. The round trip assumes
  that the lexer undoes it.
- The writer's `TYPE_ID` field branch, which prints a name with no ';',
  is unreachable. Fields are looked up through getValue, which never
  yields an identifier. `Writer.FieldPieces` keeps that branch as
  written, but `Writer.FieldsOut` never reaches it.
- The root's own value is not printed, so it does not round-trip.
  `TreeRead.ExportReadBack` states this.
- Trees that hold identifier values do not round-trip. Own values print
  nothing, and fields print their target's value. `TreeRoundTrip.Writable`
  excludes such trees, along with numbers outside the long range.
- Self-inheritance in a struct that already holds children iterates a
  queue it is appending to. This happens only for a second ':' clause
  after one that copied children. Java then grows that queue while
  walking it, and the model copies a snapshot.
- `StructNodes.StructNode.GetValue` requires a reference chain that ends
  (`Structs.GetValue != Diverges`). For a cycle, Java's while loop never
  returns; `Structs.SelfReferenceDiverges` shows the simplest case.
- `Writer.Export` reports a reference cycle among fields as a `Cycle`
  fault. Java's getValue loops forever on one instead, and the model
  stops.
- The typed `read` entry points and `write` overloads, and closing the
  streams, are I/O and are left out.
- `toString()` of a DLStruct is a `write` into a string, and is left out
  with the other writes.
