# Design patterns in Python, modelled in Dafny

This project models the parts of a collection of small Python programs that
illustrate design patterns and that carry logic of their own. It proves what
those programs do.

- **State** (`state_pattern/state_pattern.py`). This is an XML-like tag parser.
  - A `Parser` holds a tree of `Node`s, a `root`, a `current_node` and a state object.
  - Each of the states `FirstTag`, `ChildNode`, `OpenTag`, `CloseTag` and `TextNode` consumes a prefix of the remaining text. It then updates the parser and picks the next state.
  - `Parser.process` repeats this until nothing is left.
  - In the model:
    - `XmlState` gives each state as a step function on a snapshot of the parser. Nodes live in an arena (a node is its position in a list), and the drive loop is `Run`.
    - `XmlParser` is the `Parser` class itself. Its methods update the fields in place and are proved against those step functions.
    - `XmlTree` covers `Node.__str__` and the pre-order walk of the main program.
    - `XmlRoundTrip` proves that a well-formed document laid out like the sample parses back to its tree, and gives the arena of the sample book.
- **State, first draft** (`state_pattern.py`). This is the unfinished copy of the same parser. Three of its state classes are empty, so it fails as soon as it needs one of them (`XmlDraft`). Its `Node` and `Node.__str__` are those of the finished parser.
- **Abstract Factory** (`abstract_factory_pattern.py`). French and American date and currency formatters, the two factories and the map from country code to factory (`Formatters`).
- **Adapter** (`adapter_pattern.py`). An age calculator that reads `Y-M-D` text, and an adapter that feeds it calendar dates (`Age`).
- **Iterator** (`iterator_pattern.py`). An iterable over the upper-cased words of a text, with a separate cursor object, and a class that is both at once (`Words`).
- **Composite** (`composite_pattern.py`). Folders and files in a tree of name-keyed dictionaries, with path lookup, `add_child`, `move` and `delete`, and the module's script (`Composite`).
- **Flyweight** (`flyweight_pattern.py`). Car models cached by name and initialised once, shared by cars (`Flyweight`).

`PyStr` holds the Python `str` behaviour these programs rely on: `find`, indexing, slicing with negative bounds and clamping, `strip`, `startswith`, `split`, `split()` and `upper()`. `Common` holds `Option` and `Result`.

## Model

| member | source | states |
|---|---|---|
| PyStr.FindSpec | state_pattern/state_pattern.py:72-73 | `find` (`Find`) reports -1 only when the character is absent; otherwise no occurrence comes before the index it reports |
| PyStr.FindFirst | state_pattern/state_pattern.py:72-73 | the first occurrence of a character is the index `find` returns |
| PyStr.Clamp | state_pattern/state_pattern.py:74 | a slice bound counts from the end when negative and is clamped to `0..len` |
| PyStr.Slice | state_pattern/state_pattern.py:74 | `s[a:b]` is the piece between the clamped bounds, and empty when the clamped start is not below the clamped stop |
| PyStr.Index | state_pattern/state_pattern.py:113 | `s[k]` raises exactly outside `-len(s)..len(s)-1`; a `k` from 0 up gives the character at `k`, and a negative `k` the character at `len(s) + k` |
| PyStr.StripSpec | state_pattern/state_pattern.py:83 | `strip` (`Strip`) keeps one contiguous piece of the input, with only whitespace outside it |
| PyStr.StripEnds | state_pattern/state_pattern.py:83 | the result of `strip` neither starts nor ends with whitespace |
| PyStr.StripIdempotent | state_pattern/state_pattern.py:118 | stripping twice is stripping once |
| PyStr.StripSpaceSuffix | state_pattern/state_pattern.py:118 | whitespace at the end of a text makes no difference to its strip |
| PyStr.JoinSplit | composite_pattern.py:64 | joining the fields of `split(sep)` (`Split`) with `sep` gives back the text |
| PyStr.SplitJoin | adapter_pattern.py:24 | splitting a join of separator-free fields gives back the fields |
| PyStr.SplitWsUnspaced | iterator_pattern.py:53 | the words of `split()` (`SplitWs`), end to end, are exactly the non-whitespace characters in order |
| PyStr.SplitWsJoin | iterator_pattern.py:53 | splitting words joined by single spaces gives back the words |
| PyStr.Upper | iterator_pattern.py:53 | `upper()` keeps the length and maps each character on its own (`UpperChar`): `a`-`z` go 32 code points down to `A`-`Z`, and every other character is kept |
| XmlTree.NodeStr | state_pattern/state_pattern.py:47-51 | the line starts with the tag name, and it is followed by `": "` and the text exactly when the text is non-empty |
| XmlTree.NodeStrInjective | state_pattern/state_pattern.py:47-51 | for tag names without `:`, the printed line determines the tag and the text |
| XmlParser.Parser.constructor | state_pattern/state_pattern.py:55-59 | a new parser keeps the text and has no root, no current node and the `FirstTag` state |
| XmlState.FirstTagCreatesRoot | state_pattern/state_pattern.py:70-78 | on a new parser (`Init`) the first step (`StepFirstTag`) makes one node with no parent, children or text, named by the text strictly between the first `<` and the first `>`. That node becomes both `root` and `current_node`, the next state is `ChildNode`, and the text after the first `>` is returned; without a `>`, the whole input is returned |
| XmlParser.Parser.ProcessFirstTag | state_pattern/state_pattern.py:70-78 | the fields written in place and the text returned are those of the `FirstTag` step |
| XmlState.DispatchStartsWith | state_pattern/state_pattern.py:85-92 | the next state is `CloseTag` iff the text starts with `</`; `OpenTag` iff it starts with `<` but not `</`; `TextNode` otherwise |
| XmlState.ChildNodeDispatches | state_pattern/state_pattern.py:81-94 | `ChildNode` (`StepChildNode`) returns its input stripped at both ends and changes nothing but the state, which it picks from the stripped text with `</` tested before `<` |
| XmlParser.Parser.ProcessChildNode | state_pattern/state_pattern.py:81-94 | the fields written in place and the text returned are those of the `ChildNode` step |
| XmlState.OpenTagAppendsChild | state_pattern/state_pattern.py:97-106 | `StepOpenTag` raises exactly when there is no current node. Otherwise it appends one node at the end of the arena, whose parent is the current node, and adds it at the end of that node's children. No other node changes. The new node becomes current, the state becomes `ChildNode`, and the text after the first `>` is returned |
| XmlParser.Parser.ProcessOpenTag | state_pattern/state_pattern.py:97-106 | the in-place update and the returned text are those of the `OpenTag` step; a raising step leaves the parser as it was |
| XmlState.CloseTagChecks | state_pattern/state_pattern.py:109-118 | `StepCloseTag` succeeds exactly when three things hold: the character after the first `<` exists and is `/`, the name between it and the first `>` is the current node's tag, and there is a current node. It raises `IndexError` exactly when that character is past the end, and `AttributeError` exactly when the `/` is there but there is no current node |
| XmlState.CloseTagAscends | state_pattern/state_pattern.py:109-118 | a successful close leaves the nodes and `root` as they were, makes the current node's parent current, goes to `ChildNode` and returns the stripped text after the first `>` |
| XmlState.CloseRootLeavesNoCurrent | state_pattern/state_pattern.py:109-118 | closing the root leaves no current node, after which every `OpenTag`, `CloseTag` or `TextNode` step raises |
| XmlParser.Parser.ProcessCloseTag | state_pattern/state_pattern.py:109-118 | the in-place update and the returned text are those of the `CloseTag` step; a failed assertion leaves the parser as it was |
| XmlState.TextNodeOverwrites | state_pattern/state_pattern.py:121-127 | `StepTextNode` raises exactly when there is no current node. Otherwise it replaces (does not extend) the current node's text with what precedes the first `<`, and changes nothing else but the state. It returns the rest from that `<`, or the last character alone when there is no `<` |
| XmlState.TextSplit | state_pattern/state_pattern.py:123-127 | the captured text followed by the returned rest is the input. The text holds no `<`, and the rest starts with `<` when there is one |
| XmlState.TextKeepsTrailingSpace | state_pattern/state_pattern.py:83-127 | text reached through `ChildNode` starts with no whitespace, but the whitespace before the next `<` stays in it |
| XmlParser.Parser.ProcessTextNode | state_pattern/state_pattern.py:121-127 | the in-place update and the returned text are those of the `TextNode` step |
| XmlParser.Parser.ProcessStep | state_pattern/state_pattern.py:62 | one call of the current state's `process` is the step function of that state |
| XmlState.ChildrenInOrder | state_pattern/state_pattern.py:102-103 | a children list holds exactly the nodes naming that parent, each once, in creation order |
| XmlState.StepValid | state_pattern/state_pattern.py:97-127 | every step (`Step`, one state's `process`) that does not raise keeps the tree's shape: the root at position 0, each parent created before its child, and each children list equal to the nodes that name that parent, in order |
| XmlState.StepLinked | state_pattern/state_pattern.py:97-127 | every step that does not raise keeps `current_node` and every parent and child index in range |
| XmlState.RunEndsOnce | state_pattern/state_pattern.py:61-64 | the drive loop (`Run`) is deterministic: two runs from the same start that both end, end the same way |
| XmlState.StepProgress | state_pattern/state_pattern.py:61-64 | on delimited text, a step that does not raise either returns `""` or leaves delimited text, with (remaining length, state rank) strictly smaller |
| XmlParser.Parser.Process | state_pattern/state_pattern.py:61-64 | on delimited text the loop stops and keeps the tree's shape. It ends as the drive loop of the step functions does: either all text is consumed, or the last step raised and the parser is as that step found it |
| XmlParser.Parser.Start | state_pattern/state_pattern.py:66-67 | processes the whole text given to the constructor, with the same outcome |
| XmlState.UnclosedTagNeverFinishes | state_pattern/state_pattern.py:97-106 | an opening tag with no `>` after it is read again and again, so the loop never ends |
| XmlState.MalformedInputLoops | state_pattern/state_pattern.py:61-64 | on `<a><b` the parser neither finishes nor raises, whatever the number of steps |
| XmlRoundTrip.ParseDocument | state_pattern/state_pattern.py:61-127 | a well-formed element laid out like the sample parses in `1 + BodySteps` steps without raising. The result is the element's nodes in pre-order, with parents and children by position, the root at 0 and no current node |
| XmlRoundTrip.DocumentOutcome | state_pattern/state_pattern.py:66-67 | whatever the number of steps, a run on such a document is either still going or has ended exactly as `ParseDocument` says |
| XmlRoundTrip.BookWellFormed | state_pattern/state_pattern.py:20-37 | the sample book is well formed |
| XmlRoundTrip.BookArena | state_pattern/state_pattern.py:20-37 | the sample book gives these nodes: `book` with `author`, `publisher`, `title` and `content`, where `author` has the text `Dusty Phillips`, and two `chapter`s under `content`, each with a `number` and a `title` |
| XmlTree.ValidTree | state_pattern/state_pattern.py:137-142 | every tree the parser keeps has the shape the walk needs |
| XmlTree.WalkStart | state_pattern/state_pattern.py:137 | the work list `[root]` has the whole walk still to do |
| XmlTree.WalkStep | state_pattern/state_pattern.py:139-142 | popping the front node and putting its children in front of the rest shortens the walk still to do by that node alone |
| XmlTree.WalkVisitsEachOnce | state_pattern/state_pattern.py:137-142 | the walk from the root meets every node of a parsed tree, and none twice |
| XmlParser.Walk | state_pattern/state_pattern.py:139-142 | the work-list loop prints the lines (`Lines`, one `Node.__str__` per node) of the pre-order walk from the root |
| XmlParser.PrintTree | state_pattern/state_pattern.py:137-142 | after a parse that made a root, the printed lines are those of the pre-order walk |
| XmlDraft.DraftParser.constructor | state_pattern.py:55-59 | a new draft parser has no root, no current node and the `FirstTag` state |
| XmlDraft.FirstNodeIsRoot | state_pattern.py:70-78 | the draft's first step makes a root with no parent, children or text, named by the text between the first `<` and the first `>` |
| XmlDraft.DraftStart | state_pattern.py:61-106 | the draft's parse (`DraftRun` from a new parser) completes exactly when nothing but whitespace follows the first `>`, with the first node as both root and current node. Otherwise it raises in the state `ChildNode` picked for what follows |
| XmlDraft.SingleTagCompletes | state_pattern.py:61-94 | a lone opening tag whose name holds no `>`, followed by whitespace, parses to one root node with that name, no children and no text |
| XmlDraft.FurtherContentFails | state_pattern.py:97-106 | anything but whitespace after the first tag makes the next step raise, in `OpenTag`, `CloseTag` or `TextNode` |
| XmlDraft.DraftStepRank | state_pattern.py:61-64 | each step that does not raise moves to a lower state, so the draft's loop always stops |
| XmlDraft.DraftParser.ProcessStep | state_pattern.py:62 | one step in place is the draft's step function `DraftStep`, and a raising step leaves the parser as it was |
| XmlDraft.DraftParser.Process | state_pattern.py:61-64 | the loop ends exactly as the draft's run `DraftRun` does |
| XmlDraft.DraftParser.Start | state_pattern.py:66-67 | processes the text given to the constructor |
| Formatters.Pad2 | abstract_factory_pattern.py:32-33 | a one-character day or month gets a leading `0`; other lengths pass through |
| Formatters.PadYear | abstract_factory_pattern.py:31 | a two-character year gets the prefix `20`; other lengths pass through |
| Formatters.FranceDateFields | abstract_factory_pattern.py:29-34 | a French date (`FranceDate`) splits at `/` into the padded day, month and year, in that order |
| Formatters.UsaDateFields | abstract_factory_pattern.py:38-43 | an American date (`UsaDate`) splits at `-` into the padded month, day and year, in that order |
| Formatters.DateFormatsAgree | abstract_factory_pattern.py:28-43 | the two formats (`FormatDate` of either formatter) hold the same three fields, with day and month swapped |
| Formatters.Cents | abstract_factory_pattern.py:50-54 | `""` becomes `00`, one character gets a leading `0`, and longer text is unchanged |
| Formatters.UngroupGrouped | abstract_factory_pattern.py:56-63 | deleting the separators from the grouped amount (`Grouped`) gives back the amount |
| Formatters.GroupedLength | abstract_factory_pattern.py:56-63 | an amount of `n > 0` characters gains exactly `(n - 1) / 3` separators |
| Formatters.GroupedSeparators | abstract_factory_pattern.py:56-63 | a separator stands exactly where the distance from the end is a multiple of four, so every third digit from the right has one in front and the front never does |
| Formatters.Group | abstract_factory_pattern.py:56-63 | the loop over the reversed digits, followed by the reversing join, yields the grouped amount |
| Formatters.FormatCurrency | abstract_factory_pattern.py:46-87 | the French output is `FranceCurrencyAsWritten`: the grouped amount with spaces, the three characters `â‚¬` the source writes for the sign, and the cents; the American output is `UsaCurrency`: `$`, the grouped amount with commas, `.` and the cents |
| Formatters.FranceCurrencyParts | abstract_factory_pattern.py:46-65 | the intended French amount (`FranceCurrency`) splits at the euro sign into the grouped amount and the padded cents, and removing the spaces gives back the amount |
| Formatters.FranceCurrencyAsWrittenParts | abstract_factory_pattern.py:46-65 | the French amount as written is the grouped amount, the three characters `â‚¬` and the padded cents in a row; removing the spaces from the first part gives back the amount, and no euro sign appears |
| Formatters.UsaCurrencyParts | abstract_factory_pattern.py:68-87 | an American amount is `$`, then the grouped amount and the cents split at `.`, and removing the commas gives back the amount |
| Formatters.MojibakeEuro | abstract_factory_pattern.py:65 | the sign as written is three characters: the UTF-8 bytes of U+20AC read as Windows-1252. It is not the euro sign, and the output for 1000 euros 5 cents differs from the intended one |
| Formatters.FactoryFor | abstract_factory_pattern.py:111-116 | the map knows `US` and `FR` and nothing else |
| Formatters.FactoriesMatch | abstract_factory_pattern.py:93-116 | each factory hands out the date and currency formatters of its own country (`CreateDateFormatter`, `CreateCurrencyFormatter`). `US` maps to the American factory, which is the module's choice, and `FR` to the French one |
| Formatters.GroupExample | abstract_factory_pattern.py:80-85 | `1000` groups as `1,000`, and `100` gets no separator |
| Age.DecimalValue | adapter_pattern.py:38 | reading the digits of a zero-padded decimal rendering gives back the number |
| Age.ParseDecimal | adapter_pattern.py:24 | `int` (`ParseInt`) reads a zero-padded decimal rendering back |
| Age.FirstBad | adapter_pattern.py:24 | reports a field `int` rejects exactly when there is one, and the one it reports is the first |
| Age.ParseDate | adapter_pattern.py:24 | reading succeeds exactly when the text splits at `-` into three fields that `int` accepts, and then gives those numbers. A "not enough values" error reports fewer than three fields, and a "too many values" error means more than three |
| Age.ParseDateRaises | adapter_pattern.py:24 | the errors in the other direction: when no field among the first four pulled is unreadable, fewer than three fields raise "not enough values" with their count and more than three raise "too many values"; otherwise the first unreadable field is the one reported |
| Age.FirstBadIsFirst | adapter_pattern.py:24 | the field reported is the earliest one `int` rejects |
| Age.AgeCountsBirthdays | adapter_pattern.py:26-33 | the age (`AgeOn`) is the number of the last birthday reached: the `j`-th birthday is on or before the date exactly when `j` is at most the age |
| Age.AgeMonotonic | adapter_pattern.py:28-33 | a later date never gives a lower age |
| Age.AgeExample | adapter_pattern.py:15-16 | born on 12 January 1975: 48 on the day before the birthday in 2024, 49 on the birthday |
| Age.NewAgeCalculator | adapter_pattern.py:23-24 | construction fails exactly as reading the birthday fails, and otherwise holds its three fields |
| Age.CalculateAge | adapter_pattern.py:26-33 | fails exactly as reading the date fails. Otherwise the age is the year difference, minus one exactly when `(month, day)` comes before the birthday's |
| Age.StrDateParses | adapter_pattern.py:37-38 | the `%Y-%m-%d` text (`StrDate`) of a calendar date has ten characters and reads back as that date |
| Age.AdapterAge | adapter_pattern.py:40-46 | the adapter (`NewDateAgeAdapter`, `GetAge`) never fails on calendar dates, and its age is the calculator's age on the dates' fields |
| Words.UpperAll | iterator_pattern.py:53 | one word out per word in, each upper-cased |
| Words.UpperWordsSpec | iterator_pattern.py:53 | the words (`UpperWords`) are non-empty, free of whitespace and one per word of the text; end to end they are the text's non-whitespace characters, upper-cased, in order |
| Words.Iterator.constructor | iterator_pattern.py:52-54 | a new cursor holds the upper-cased words and index 0 |
| Words.Iterator.Next | iterator_pattern.py:56-62 | at the end it signals `StopIteration` and leaves the index alone; otherwise it returns `words[index]` and advances the index by one, keeping `index <= len(words)` |
| Words.Iterator.Drain | iterator_pattern.py:56-62 | calling `__next__` until `StopIteration` yields exactly the words from the index on |
| Words.Iterable.constructor | iterator_pattern.py:40-41 | keeps the text |
| Words.Iterable.Iter | iterator_pattern.py:43-46 | each `__iter__` gives a fresh cursor at index 0 over the text's words |
| Words.Iterable.ForLoop | iterator_pattern.py:43-62 | a `for` loop yields the upper-cased words of the text |
| Words.Iterable.LoopTwice | iterator_pattern.py:43-46 | two loops over one iterable yield the same words |
| Words.IterableAndIterator.constructor | iterator_pattern.py:68-71 | keeps the text and holds its upper-cased words at index 0 |
| Words.IterableAndIterator.Next | iterator_pattern.py:73-79 | as `Iterator.__next__`, keeping `index <= len(words)` |
| Words.IterableAndIterator.Iter | iterator_pattern.py:81-83 | `__iter__` returns the object itself |
| Words.IterableAndIterator.Drain | iterator_pattern.py:73-79 | calling `__next__` until `StopIteration` yields the words from the index on and leaves the index at the end |
| Words.IterableAndIterator.ForLoop | iterator_pattern.py:73-83 | a loop runs the object's own cursor to the end |
| Words.IterableAndIterator.LoopTwice | iterator_pattern.py:81-83 | on a new object the first loop yields every word and a second loop yields nothing |
| Words.Example | iterator_pattern.py:13-20 | `yo momma so fat` yields `YO`, `MOMMA`, `SO`, `FAT` |
| Composite.Put | composite_pattern.py:45 | `d[k] = v` sets the entry; the key list stays as it was when the key is already there, and otherwise gains the key at the end; it keeps naming each entry once |
| Composite.Del | composite_pattern.py:32 | `del d[k]` raises `KeyError` exactly when the key is absent, and otherwise removes that entry alone; the other keys keep their order |
| Composite.Resolve | composite_pattern.py:67-68 | following no names stays put, and any object reached exists |
| Composite.ResolveStep | composite_pattern.py:67-68 | each name moves to the folder's child of that name. A missing name raises `KeyError`, and a file raises `AttributeError` because it has no `children` |
| Composite.GetPathOf | composite_pattern.py:63-70 | the object found exists |
| Composite.EmptyPathIsRoot | composite_pattern.py:63-70 | the empty path names `root` |
| Composite.AddChildEffect | composite_pattern.py:43-45 | `AddChildOf` sets the child's parent to the folder and keeps its other fields; it enters the child under its name, replacing a same-named entry, and keeps the folder's name and kind. Nothing else changes, and the state stays valid |
| Composite.UnlinkEffect | composite_pattern.py:31-32 | `Unlink` succeeds exactly when the component has a parent that holds its name; then it removes that name from the parent and changes nothing else, including the component's `parent` |
| Composite.MoveResolvesFirst | composite_pattern.py:25-26 | a move whose target cannot be resolved raises before changing anything |
| Composite.MoveToFileDetaches | composite_pattern.py:25-28 | a move to a file raises after the unlinking, leaving the component in no folder while its `parent` still names the old one |
| Composite.EnterEffect | composite_pattern.py:28-29 | entering a component in a folder (`Enter`) points it at the folder, keeping its other fields, and adds it under its name to the folder, whose name and kind stay. Nothing else changes |
| Composite.MoveEffect | composite_pattern.py:25-29 | a completed move (`MoveOf`) takes the name out of the old parent's children, whose other keys keep their order, and puts it into the target's as `d[k] = v` does. When the two are one folder, the name ends up last in the key order. `parent` points at the target, and the component's other fields are kept. No other object changes, and the state stays valid |
| Composite.MoveKeepsValid | composite_pattern.py:25-29 | every move leaves a valid state, whether it completes or raises: references in range, parents are folders, and no folder holds two children of one name |
| Composite.FileSystem.constructor | composite_pattern.py:60 | `root` is an empty folder with no parent |
| Composite.FileSystem.Create | composite_pattern.py:38-54 | a new folder or file is a new object with no parent and no children |
| Composite.FileSystem.AddChild | composite_pattern.py:43-45 | the in-place update is `add_child` on the state |
| Composite.FileSystem.GetPath | composite_pattern.py:63-70 | the lookup loop finds what `get_path` finds or raises what it raises |
| Composite.FileSystem.Delete | composite_pattern.py:31-32 | the in-place update and the exception are those of unlinking |
| Composite.FileSystem.Move | composite_pattern.py:25-29 | the outcome and the new state are those of `move`, including the detached component when the target is a file |
| Composite.FirstMove | composite_pattern.py:94 | moving `folder2` to `/folder1/folder11` completes: `folder11` then holds `file111` and `folder2` in that order, and `root` holds only `folder1` |
| Composite.SecondMove | composite_pattern.py:98 | moving `file21` to `/folder1` completes: `folder1` then holds `folder11` and `file21` in that order, and `folder2` is empty |
| Composite.Demo | composite_pattern.py:73-99 | the script prints the keys `file111`, `folder2`, then `folder11`, `file21` |
| Flyweight.ConstructCaches | flyweight_pattern.py:40-65 | after a construction (`Construct`) the name is cached and the model handed back is the cached one. The cache gains that name alone, and other entries keep their models. A new name takes the given flags; a known one keeps its own |
| Flyweight.FirstFlagsWin | flyweight_pattern.py:57-65 | constructing again under a known name changes nothing whatever the flags: the first construction's flags win |
| Flyweight.DistinctNamesCommute | flyweight_pattern.py:41-44 | constructions under different names commute |
| Flyweight.CarModel.Allocate | flyweight_pattern.py:43 | a bare instance is not initialised |
| Flyweight.CarModel.Init | flyweight_pattern.py:48-65 | the first call sets the name and the flags and marks the instance initialised; any later call changes nothing |
| Flyweight.ModelCache.constructor | flyweight_pattern.py:38 | the cache starts empty |
| Flyweight.ModelCache.DistinctInstances | flyweight_pattern.py:38-44 | different cached names hold different instances |
| Flyweight.ModelCache.New | flyweight_pattern.py:40-46 | a cached name gives back its instance and the cache is unchanged; a new name gives a fresh bare instance, cached under it |
| Flyweight.ModelCache.Make | flyweight_pattern.py:40-65 | the instance handed back is the one cached under the name, the same instance as before when the name was cached. No other entry changes, and the flags move exactly as the value-level construction says |
| Flyweight.ModelCache.Evict | flyweight_pattern.py:37-38 | dropping an unreferenced model removes that name alone |
| Flyweight.Car.constructor | flyweight_pattern.py:71-75 | a car keeps its model, colour and serial number |
| Flyweight.Example | flyweight_pattern.py:10-30 | the two cars of `FIT DX` share one model, and `FIT DX` has every flag off. The two later `FIT LX` constructions give one instance, whose `air` is still set; it is the first `FIT LX` instance exactly when no collection removed that one |

## Left out

- Printing and file input. The state example reads its document from a file named on the command line; the model parses any text. Its `print(node)` lines become the list of printed lines. The composite script's `print` of a dictionary becomes the list of its keys in order; the `repr` of the objects is not modelled. `check_serial` only prints and is not modelled.
- Python's recursion limit. `Parser.process` recurses once per step, so a deep document would raise `RecursionError`. The model runs the recursion as a loop (a tail call) without such a limit.
- XmlState.Run: counts steps with a fuel argument, since the loop need not stop; `Pending` stands for a run not yet over.
- XmlParser.Parser.Process: requires delimited text (every tag closed by a `>`, every text run followed by a `<`), the condition under which the loop is sure to stop. On other input the source may loop forever, which `UnclosedTagNeverFinishes` and `MalformedInputLoops` state instead.
- XmlParser.Parser.Start: requires the same of the whole text, for the same reason.
- XmlRoundTrip.BookArena: the sample is the element `Book` rendered by `Document`, which uses the same layout as the source's literal. That this rendering equals the literal character for character is not stated.
- Whitespace, `strip()`, `split()` and `upper()` are restricted to ASCII: tab, newline, vertical tab, form feed, carriage return, the four separators `\x1c`-`\x1f` and space, and the letters `a`-`z`.
- `int()` is modelled for optional surrounding whitespace, an optional sign and ASCII decimal digits. Underscores between digits and non-ASCII digits are not modelled.
- `date.today()` and `strftime` are not called: dates are parameters, and `_str_date` is zero-padded `Y-M-D` text. Some platforms write years below 1000 with fewer than four digits; `int` reads back the same number either way.
- `str()` of arbitrary objects: the formatters receive their fields already as text.
- Weak references and the garbage collector. The cache is a plain map. A model dropped once nothing refers to it is the explicit `Evict`, and `gc.collect()` in the module's example is the `collected` parameter.
- Flyweight.CarModel.Allocate: before its first `__init__` a Python instance has no attributes at all; the model gives it placeholder values and `initted` false.
- The six feature flags of a car model are one `Features` value, set together.
- `Folder.copy` and `File.copy` do nothing (`pass`) and are not modelled. Objects of the composite example are numbered in creation order, and a reference is that number.
- The second example of the iterator module (`HI LMAO WHAT THE HECK IS THIS`) is not worked out as a lemma; `UpperWordsSpec` covers every text.

## Findings

| source | as written | input that shows it | evidently intended | confidence | as-written member | corrected member |
|---|---|---|---|---|---|---|
| abstract_factory_pattern.py:65 | the French amount is separated from the cents by `â‚¬`, the UTF-8 bytes of the euro sign read as Windows-1252 | `format_currency(1000, 5)` gives `1 000â‚¬05` | `1 000€05`, with the euro sign U+20AC | not executed | Formatters.MojibakeEuro | Formatters.FranceCurrencyParts |
