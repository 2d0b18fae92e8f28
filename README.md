# DefinitionInjectorGenerator in Dafny

This project models `DefinitionInjectorGenerator` from JMSDiExtraBundle. The class turns a
Symfony service definition into the PHP source of a small factory closure,
`function($container) { ... return $instance; }`. The closure does four things in order:

- requires the definition's file;
- constructs the class with the definition's arguments;
- replays the method calls;
- sets the properties. A public property is assigned directly. Any other property goes through
  a `ReflectionProperty` of the class that declares it.

The class has two parts:

- **The value serializer** (`dumpValue`, module `Values`). It prints:
  - arrays, in their own key order;
  - references to services, with `service_container` standing for the container itself;
  - parameters;
  - whole-string `%name%` placeholders;
  - scalars and null, through `var_export`.

  Anything else is an error.
- **The injector generator** (`generate`, `dumpArguments` and `getReflectionProperty`, modules
  `Injector` and `ClassTable`).

Each part is modelled twice:

- **Text functions.** `Serialize`, `ArgumentsText` and `GenerateText` compute the emitted text
  as a `Result`: the text, or the first error met.
- **Methods that follow the source's loops.** `DumpValue`, `DumpArguments`, `DumpCalls`,
  `DumpProperties`, `Generate` and `GetReflectionProperty` append to `code`, or rebind `ref`,
  step by step. Each is proved equal to its function.

The text is tied to what it means in two steps:

- `Meaning` (for values) and `Plan` (for whole definitions) give the intended PHP expressions
  and statements as abstract syntax, with no reference to text.
- `ParseExpr` and `ParseInjector` read emitted text back. The round-trip lemmas show that
  reading back what was emitted gives exactly the meaning or the plan.

String literals are modelled as PHP's `var_export` writes them: single quotes, with `\` and `'`
escaped. Their decoder follows PHP's single-quote rules.

PHP's class hierarchy is an explicit table, `ClassTable.Table`. Each class has an optional
parent and its properties, each with a declared visibility. A `depth` field makes the table
acyclic: a parent is always shallower than its child.

Three behaviours of the source are kept as written:

- `dumpArguments` never initialises `$first`. PHP reads the undefined variable as null (with a
  notice), and `!null` is true, so every argument, including the first, is preceded by `", "`.
  A call with one argument is emitted as `(, x)`. See `Injector.SingleArgument`. PHP's parser
  rejects such a list, so a closure whose construction or any method call has an argument is a
  PHP syntax error. The model's reader `ParseArgumentList` accepts the leading `", "` all the
  same, so the argument and closure round trips say what the text encodes, not that PHP would
  run it.
- The placeholder test looks only at the first two characters. It then drops the last
  character whatever it is, so `%abc` becomes the parameter `ab`. See
  `Values.PlaceholderDropsLastChar`.
- How `getReflectionProperty` fails when no class in the chain declares the property:
  - The loop leaves `$ref` as `false`, and line 73 then calls a method on it.
  - The message on line 74 also names an undefined `$origName`.
  - The model turns this case into the error `MissingProperty(property, requestedClass)`.

Two cases the source leaves to PHP's string-offset rules are given a definite behaviour:

- the empty string is a literal;
- a lone `%` is a placeholder with an empty name.

## Model

| member | source | states |
|---|---|---|
| PhpLiterals.NatTextValue | Generator/DefinitionInjectorGenerator.php:117 | the decimal digits printed for a natural number have exactly that number as their value |
| PhpLiterals.IntTextRoundTrip | Generator/DefinitionInjectorGenerator.php:117 | the `%d` text of any integer reads back as that integer when no digit follows it |
| PhpLiterals.QuoteRoundTrip | Generator/DefinitionInjectorGenerator.php:126 | the single-quoted `var_export` literal of any string decodes back to that string, whatever text follows it |
| PhpLiterals.VarExportRoundTrip | Generator/DefinitionInjectorGenerator.php:126 | the `var_export` literal of null, a boolean, an integer or a string reads back as the same scalar |
| Values.Serialize | Generator/DefinitionInjectorGenerator.php:96-130 | serialization succeeds exactly when no unsupported value occurs anywhere in the value; a failure carries the type tag of an unsupported value inside it; the empty array gives exactly `array()` |
| Values.SerializeEntries | Generator/DefinitionInjectorGenerator.php:102-109 | the entry list succeeds exactly when every remaining entry's value is supported, and otherwise fails with a tag found in one of them |
| Values.DumpValue | Generator/DefinitionInjectorGenerator.php:96-130 | the method, whose array branch appends entry after entry with a separator before all but the first, returns exactly what `Serialize` specifies |
| Values.ArrayOk | Generator/DefinitionInjectorGenerator.php:98-111 | an array of supported values prints as `array(`, then `key => value` for each entry in the array's own order joined by `", "`, then `)` |
| Values.ArrayFails | Generator/DefinitionInjectorGenerator.php:102-108 | in an array, the first entry whose value is unsupported decides the error of the whole |
| Values.EntriesSplit | Generator/DefinitionInjectorGenerator.php:102-109 | at every point of the array loop, the full entry text is what has been appended so far, the separator, and the entries still to come |
| Values.SupportedIffNoUnsupported | Generator/DefinitionInjectorGenerator.php:120-129 | a value is supported exactly when no unsupported value occurs anywhere in it |
| Values.SerializeRoundTrip | Generator/DefinitionInjectorGenerator.php:96-126 | the text of every supported value, followed by `,`, `)`, `;` or nothing, reads back as the value's meaning, and the following text is left untouched |
| Values.EntriesRoundTrip | Generator/DefinitionInjectorGenerator.php:98-111 | the emitted entries of a nonempty array, followed by `)`, read back as the entries' keys and meanings in order |
| Values.ArrayKeepsKeysAndOrder | Generator/DefinitionInjectorGenerator.php:98-111 | an emitted array reads back with as many entries as the source array, each with the same key and the meaning of the same value, in the same order |
| Values.ReferenceSemantics | Generator/DefinitionInjectorGenerator.php:112-117 | a reference to `service_container` prints exactly `$container` whatever its invalid behaviour; any other reference reads back as a `get` of the same id with the same behaviour |
| Values.StringSemantics | Generator/DefinitionInjectorGenerator.php:120-126 | a string reads back as a parameter lookup of the string without its two end characters exactly when it passes the placeholder test, and as the literal string itself otherwise |
| Values.PlaceholderIsParameter | Generator/DefinitionInjectorGenerator.php:118-123 | `%name%` prints exactly like `Parameter(name)` for any nonempty name not starting with `%` |
| Values.PlaceholderDropsLastChar | Generator/DefinitionInjectorGenerator.php:122-123 | `%name` followed by any one character (one PHP byte, see "Left out") prints like `Parameter(name)`; no trailing `%` is required |
| Values.EscapedPercentIsLiteral | Generator/DefinitionInjectorGenerator.php:122-126 | a string starting with `%%` prints as its own quoted literal and reads back unchanged |
| Values.ShortStrings | Generator/DefinitionInjectorGenerator.php:122-126 | a lone `%` prints like the parameter with the empty name; the empty string prints as `''` |
| Values.ScalarSemantics | Generator/DefinitionInjectorGenerator.php:120-126 | a scalar or null that is not a placeholder prints as its `var_export` literal, which reads back as the same scalar |
| Values.UnsupportedAnywhereFails | Generator/DefinitionInjectorGenerator.php:98-129 | an unsupported value at any depth makes the whole serialization fail with an unsupported-value error |
| ClassTable.Ancestors | Generator/DefinitionInjectorGenerator.php:71 | the chain starts at the requested class, stays in the table, steps from each class to its parent, and ends at a class with no parent |
| ClassTable.WalkFindsNearest | Generator/DefinitionInjectorGenerator.php:71 | the walk up the parents returns the first class of the chain declaring the property, with no nearer class declaring it; it returns nothing exactly when no class in the chain declares it |
| ClassTable.Lookup | Generator/DefinitionInjectorGenerator.php:68-78 | lookup succeeds exactly when some class of the chain declares the property; it returns the nearest such class and that class's declared visibility; a failure is `MissingProperty` naming the property and the requested class |
| ClassTable.GetReflectionProperty | Generator/DefinitionInjectorGenerator.php:68-78 | the method, which rebinds `ref` to the parent until the property is found or the chain ends, returns exactly what `Lookup` specifies |
| Injector.DumpArguments | Generator/DefinitionInjectorGenerator.php:80-94 | the method, with `first` never set to true as in the source, returns exactly `ArgumentsText`: `(`, then `", "` and the value for every argument, then `)`, or the first argument's error |
| Injector.NoArguments | Generator/DefinitionInjectorGenerator.php:80-94 | no arguments give exactly `()` |
| Injector.SingleArgument | Generator/DefinitionInjectorGenerator.php:85-88 | as written, one argument gives `(, x)`: the separator comes before the first argument too |
| Injector.MoreArguments | Generator/DefinitionInjectorGenerator.php:84-93 | appending one argument inserts `", "` and its value just before the closing parenthesis |
| Injector.ArgumentsRoundTrip | Generator/DefinitionInjectorGenerator.php:80-94 | the emitted argument list of supported values reads back as the arguments' meanings in order |
| Injector.DumpCalls | Generator/DefinitionInjectorGenerator.php:42-45 | the method-call loop returns one `$instance->name(args);` line per call, in order, or the first error |
| Injector.CallRoundTrip | Generator/DefinitionInjectorGenerator.php:44 | one emitted method-call line reads back as a call of the same method with the arguments' meanings |
| Injector.DumpProperties | Generator/DefinitionInjectorGenerator.php:48-58 | the property loop returns one block per property, in order; each block looks the property up, then is a direct assignment if public, else the three-line `ReflectionProperty` sequence; otherwise the first error is returned |
| Injector.PropertyBlockRoundTrip | Generator/DefinitionInjectorGenerator.php:51-57 | a public property's line reads back as a direct assignment; any other block reads back as a forced assignment naming the declaring class and the property |
| Injector.Generate | Generator/DefinitionInjectorGenerator.php:32-66 | the method, which appends section after section to `code`, returns exactly `GenerateText` |
| Injector.GenerateSucceedsIffPlanned | Generator/DefinitionInjectorGenerator.php:32-66 | generation succeeds exactly when every argument and call argument is supported, the class exists, and every property resolves up the chain with a supported value |
| Injector.PlanOrder | Generator/DefinitionInjectorGenerator.php:34-63 | a plan is the `require_once` (only for a truthy file), the construction, one call per method call in order, and one assignment per property in order, direct when the declaring class's visibility is public |
| Injector.GenerateErrors | Generator/DefinitionInjectorGenerator.php:32-66 | every failure is one of: an unsupported value occurring in an argument, a call argument or a property value; the definition's own class missing, after arguments and calls succeeded; a property of the definition that no class in the chain declares |
| Injector.MissingClassFails | Generator/DefinitionInjectorGenerator.php:47 | an unknown class fails generation with `MissingClass` once arguments and calls are emitted, with or without properties |
| Injector.HeaderRoundTrip | Generator/DefinitionInjectorGenerator.php:36-38 | the `require_once` line reads back as the file exactly when the file is truthy (not null, `""` or `"0"`); otherwise there is no line |
| Injector.ConstructRoundTrip | Generator/DefinitionInjectorGenerator.php:40 | the construction line reads back as the class and the meanings of its arguments |
| Injector.GenerateRoundTrip | Generator/DefinitionInjectorGenerator.php:32-66 | for a definition whose names are identifiers and which has a plan, the emitted closure reads back as that plan |

## Left out

- Floating-point values. `var_export`'s float formatting is not modelled, and `Scalar` has no
  float case.
- Strings as bytes. A Dafny `char` stands for one PHP byte. PHP strings are byte strings, so
  where line 123 cuts off one byte the model cuts off one whole character. The two agree when
  the last character is a single byte (ASCII). For `"%ab€"` PHP keeps the first two bytes of
  the euro sign in the name; the model drops the whole sign.
- `var_export` of strings that contain a NUL byte. PHP splices those in as `"\0"`; the model
  quotes every character the same way.
- Integer width. Integers are unbounded, so the 64-bit range and PHP's special text for
  `PHP_INT_MIN` are not modelled.
- The exact text of exception messages (lines 74 and 129). An error names only its kind and
  its type tag, property or class.
- Real PHP reflection. `ReflectionClass`, `hasProperty`, `getParentClass` and
  `getDeclaringClass` are replaced by the class table:
  - The lookup returns the nearest class in the parent chain that declares the property.
    That is the declaring class PHP reports.
  - PHP's `hasProperty` on a subclass also sees inherited non-private properties. That stops
    the source's loop earlier, but the declaring class and visibility it reports are the same.
  - Case-insensitive class names, autoloading and interfaces are not modelled.
- Configurators. The source does not implement them (the FIXME at line 60).
- What the emitted code does at run time: `require_once`, `$container->get` and
  `$container->getParameter`. The meaning of emitted text is given only by its abstract
  syntax and the model's own decoder. That decoder is more lenient than PHP: `ParseArgumentList`
  accepts the leading `", "` of the source's argument lists, which PHP rejects as a syntax error.
- PHP's notices for string offsets past the end, at line 122. The model gives short strings
  a definite behaviour instead (see above).
- The Symfony `Definition`, `Reference` and `Parameter` classes. Only the fields the generator
  reads are kept. A reference id is taken as given. Symfony's own normalisation of ids is not
  part of this model.
- Property names are not required to be unique. In PHP they are the keys of an array, so they
  are; the model allows any list.
- Array keys are not normalised. PHP arrays have unique keys, and a numeric string key such as
  `"5"` becomes the integer `5`. The model's `Array` takes any list of entries, duplicate keys
  and `StrKey("5")` included, so it accepts more inputs than PHP can produce.
- Injector.GenerateRoundTrip: stated only for class, method and property names made of ASCII
  letters, digits and `_` (and `\` in class names). PHP itself allows more characters.
