# Version bump of the Pokédex app, in Dafny

The repository ships a small release script, `scripts/bump-version.js`. It
reads the app's version string `MAJOR.MINOR.PATCH` and raises one component.
A major bump resets minor and patch to zero. A minor bump resets patch. A
patch bump, and any bump type the switch does not recognise, raises only
the patch. The script then writes the new string back. The command accepts
`major`, `minor` or `patch` as its argument and defaults to `patch`.

This project models that logic and proves its properties:

- `semver.dfy` (module `SemVer`): version triples and the three bump kinds.
  It defines precedence as in item 11 of Semantic Versioning 2.0.0. It
  defines each increment as the least version above the input at its level
  (items 6, 7 and 8), and proves that this characterisation is unique.
- `version_text.dfy` (module `VersionText`): the string side. It covers
  splitting on `.`, reading decimal numerals as unbounded naturals, printing
  naturals as numerals, and joining with `.`. Both directions of the round
  trip are proved. Parsing then printing gives the input back exactly when
  no component has a leading zero.
- `bump_version.dfy` (module `BumpScript`): the dispatch on the bump type,
  with its default. It holds the in-place switch on an `array<nat>` of
  components, the string-to-string `BumpVersion` method, and the command's
  argument check. End-to-end lemmas show three things. The output parses
  back to the bumped components, so bumps compose. Precedence strictly
  rises. The output has no leading zeros.
- `wrappers.dfy` (module `Wrappers`): `Option` and `Result`.

The script itself is a JavaScript program. Its version components are
JavaScript numbers. Here they are `nat`, and the inputs are restricted to
strings whose dot-separated pieces are all non-empty digit runs
(`BumpScript.CanBump`). A major bump needs one component, a minor bump two
and a patch bump three. The switch assigns `parts[1]` and `parts[2]`, and in
JavaScript that grows a shorter array, so "1" and "1.2" bump to "2.0.0" under
major and "1.2" to "1.3.0" under minor. Components after the third pass
through unchanged, as they do in the script.

## Model

| member | source | states |
|---|---|---|
| `SemVer.Bump` | scripts/bump-version.js:17-31 | the bumped version lies above the input at the bump's level, and is the least such version: major raises major and zeroes the rest, minor keeps major and zeroes patch, patch keeps major and minor |
| `SemVer.BumpIsUniqueLeast` | scripts/bump-version.js:17-31 | a version equals the bump of v if and only if it is the least version above v at the bump's level |
| `SemVer.BumpRaisesPrecedence` | scripts/bump-version.js:17-31 | every bump kind yields a version of strictly higher precedence |
| `SemVer.BumpMonotone` | scripts/bump-version.js:17-31 | bumps of one kind preserve the precedence order of their inputs |
| `VersionText.Value` | scripts/bump-version.js:15 | the number a digit run denotes is positive when its first digit is not zero, and at least 10 when it also has two or more digits |
| `VersionText.Numeral` | scripts/bump-version.js:33 | a number prints as a canonical numeral (no leading zeros) that denotes that number |
| `VersionText.Split` | scripts/bump-version.js:15 | splitting on '.' gives at least one piece, no piece contains '.', and joining the pieces with '.' gives back the input |
| `VersionText.Parse` | scripts/bump-version.js:15 | parsing succeeds exactly when every piece is a non-empty digit run, and then gives one number per piece, the value of that piece |
| `VersionText.LeadingZeroIgnored` | scripts/bump-version.js:15 | a leading zero does not change the value of a numeral |
| `VersionText.CanonicalIsNumeralOfValue` | scripts/bump-version.js:33 | a numeral without leading zeros is the printed form of its own value |
| `VersionText.NumeralRoundTrip` | scripts/bump-version.js:15-33 | reading a numeral and printing its value gives the numeral back if and only if it has no leading zeros |
| `VersionText.SplitJoin` | scripts/bump-version.js:15-33 | splitting undoes joining, for pieces that contain no '.' |
| `VersionText.Join` | scripts/bump-version.js:33 | joining non-empty pieces with '.' gives a string that starts with the first piece and is one character per consecutive pair longer than the pieces together; `Split` inverts it (`SplitJoin`) |
| `VersionText.JoinShape` | scripts/bump-version.js:33 | in the joined string a '.' follows the first piece whenever more pieces come, and the string ends with the last piece |
| `VersionText.Print` | scripts/bump-version.js:33 | printing any non-empty list of components and parsing the result gives the same components |
| `VersionText.PrintParse` | scripts/bump-version.js:15-33 | printing the parsed components gives the input back if and only if no piece has a leading zero |
| `VersionText.ParseIgnoresLeadingZero` | scripts/bump-version.js:15 | putting a zero in front of the first component does not change the parsed components |
| `BumpScript.Kind` | scripts/bump-version.js:14-31 | an omitted type means patch; "major" and "minor" select their branch; every other string falls through to patch |
| `BumpScript.EffectiveType` | scripts/bump-version.js:37 | a missing or empty command argument becomes "patch"; any other argument is used as given |
| `BumpScript.ValidateArgument` | scripts/bump-version.js:37-42 | the command accepts exactly a missing or empty argument, "major", "minor" and "patch", and fails with the usage message otherwise; an accepted argument names the bump the switch then performs |
| `BumpScript.Grown` | scripts/bump-version.js:20-25 | the component array grown to three cells as the assignments to parts[1] and parts[2] grow it: existing components kept, new cells zero |
| `BumpScript.BumpedParts` | scripts/bump-version.js:17-31 | the first three components, short versions grown to three, become the bumped triple; later components and the count are kept, and precedence strictly rises |
| `BumpScript.BumpParts` | scripts/bump-version.js:18-30 | the in-place switch: major increments component 0 and zeroes 1 and 2; minor keeps 0, increments 1 and zeroes 2; patch keeps 0 and 1 and increments 2; components from 3 on are unchanged |
| `BumpScript.BumpVersion` | scripts/bump-version.js:14-34 | parsing, bumping the component array in place (grown to three cells) and joining yields the printed bumped components |
| `BumpScript.UpdateVersion` | scripts/bump-version.js:37-47 | an unaccepted argument fails with the usage message before any version is computed; an accepted one yields the current version bumped with the effective type |
| `BumpScript.BumpedTextParses` | scripts/bump-version.js:15-33 | the bumped string parses back to exactly the bumped components, so it is again a well-formed version and can be bumped again |
| `BumpScript.BumpedTextRaisesPrecedence` | scripts/bump-version.js:14-34 | the version read from the bumped string has strictly higher precedence than the version read from the input, missing components read as zero |
| `BumpScript.ShortVersionGrowsToThree` | scripts/bump-version.js:18-26 | a version with fewer than three components is in the model's domain only for a major or minor bump, and comes out with three: (X+1).0.0 for major, X.(Y+1).0 for minor |
| `BumpScript.BumpedTextIsCanonical` | scripts/bump-version.js:33 | every component of the bumped string is written without leading zeros |
| `BumpScript.PatchTwice` | scripts/bump-version.js:27-30 | two default bumps in a row raise the patch component by two and keep major and minor |
| `BumpScript.LeadingZeroDropped` | scripts/bump-version.js:15-33 | a leading zero on the major component does not change the bumped string |

## Left out

- `BumpScript.BumpVersion`: requires `CanBump`, meaning every piece is a non-empty digit run and there are enough of them for the bump kind. Every piece that is not a digit run is outside the model, whatever JavaScript's `Number` makes of it: it reads " 7" and "+7" as 7, "-7" as -7, "0x1f" as 31, "0b11" as 3, "0o17" as 15, "1e3" and "1E3" as 1000, "Infinity" as Infinity, an empty or whitespace-only piece as 0, and other text as NaN (this list is not complete). A minor bump of a one-component version, or a patch bump of fewer than three, increments a missing component and prints `NaN`. None of these outputs is modelled.
- `BumpScript.BumpParts`: requires an array of at least three cells. The script's array grows when `parts[1]` or `parts[2]` is assigned, but Dafny arrays have a fixed length. `BumpVersion` therefore allocates three cells for a shorter version and fills the missing ones with 0. In every case `CanBump` admits, the switch overwrites those cells before reading them. The growth itself, as an update in place, is not captured.
- `BumpScript.UpdateVersion`: needs `CanBump` for the current version whenever the argument is accepted, for the same reason.
- Components are unbounded naturals. JavaScript numbers lose precision above 2^53, and from 1e21 up JavaScript prints a component in exponent form ("1e+21"), which `VersionText.Numeral` does not. Neither is modelled.
- File and process I/O of the command (scripts/bump-version.js:44-61) is not modelled. This covers reading and writing `app.json` and `package.json` as JSON, `process.argv`, `process.exit` and the console messages. The command-line argument is a parameter of `UpdateVersion`, and the exit with an error becomes a `Failure` result.
- The screens under `app/` and `components/` fetch from a remote API and render UI. They have no logic of their own worth a model. In app/favouritePokemon.tsx the favourite lives only in component state. The screens under app/(tabs)/ persist the partner Pokémon, the shiny preference and the trainer details through AsyncStorage (app/(tabs)/partnerPokemon.tsx:277-345, app/(tabs)/search.tsx:76-182). That storage I/O is outside this model.
