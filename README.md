# Allpix Squared: four core pieces, modelled and proved in Dafny

This project models four pieces of the Allpix Squared simulation framework.
It proves what each of them does.

- **Hexagonal pixel addressing** (`outcomes.dfy`, `hexagonal_pixel.dfy`, module `HexagonalPixelDetectorModel`).
  `getPixelIndex` maps a position in the local frame to the (column, row) of a hexagonal pixel. `getGridSize` gives the extent of the pixel grid.
  - Floating point becomes exact reals, and std::sqrt(3) becomes a parameter `r3` with `r3 * r3 == 3`.
  - The position tests are proved against the geometry of the hexagons by a change to lattice units. In those units every slanted edge is a line with integer coefficients.
- **The CRY parameter-line parser** (`cry_parameter.dfy`, module `CRYAbsParameter`).
  The constructor `CRYAbsParameter(std::string)` turns a line `type name = {value}` into a name and a value; `print` writes them out.
  - `std::istringstream` and `std::getline` are modelled as a text, a read position and the eof flag.
  - The constructor's two `while(!eof)` loops are the methods `ReadName` and `ReadValue`, and its two straight-line `getline` calls on the whole line are the method `ReadSides`. Each method is proved equal to a specification function built on `Split`, the fields that repeated `getline` calls deliver.
- **The static module manager** (`static_module_manager.dfy`, module `StaticModuleManager`).
  The class keeps the list `modules_` and the two maps `id_to_module_` and `module_to_id_`. `load` handles every created instance with the priority rule: replace, ignore, or throw an ambiguity error. The model proves:
  - `load` equals a fold of specification functions;
  - the registry invariant, and that the smallest priority value wins;
  - that sections with an empty name are skipped.
  - The null checks of the constructor and of `get_factory` become error results.
- **Passive-volume ordering** (`passive_material.dfy`, module `PassiveMaterialConstructionG4`).
  `registerVolumes` creates one volume per passive configuration. It then sorts all volumes by the depth of their mother chain (the recursive `hierarchy` lambda). `buildVolumes` builds them in that order. The model proves:
  - the sort yields a permutation ordered by depth;
  - a volume's depth is one more than its mother's;
  - every mother therefore comes before the volumes inside it.

Exceptions and `assert(0)` become `Failure` values or error results. The state reached before a throw is kept, as it is in the source.

The generator function, the factories and the passive configurations are parameters of the model. So are the pixel pitch and pixel counts that the detector model reads from its configuration.

## Model

| member | source | states |
|---|---|---|
| `HexagonalPixelDetectorModel.CppRem` | src/core/geometry/HexagonalPixelDetectorModel.hpp:48-86 | C++ `%` with a positive divisor: a equals b times the quotient truncated toward zero plus the remainder, and the remainder lies strictly between -b and b and takes the sign of the dividend |
| `HexagonalPixelDetectorModel.Ceil` | src/core/geometry/HexagonalPixelDetectorModel.hpp:45 | std::ceil(v) is the integer c with v <= c < v + 1 |
| `HexagonalPixelDetectorModel.YModulusRange` | src/core/geometry/HexagonalPixelDetectorModel.hpp:41-48 | y_modulus is always in 0..5, so `y_modulus % 6` is y_modulus and the default branch is unreachable |
| `HexagonalPixelDetectorModel.ParityTests` | src/core/geometry/HexagonalPixelDetectorModel.hpp:50-86 | the tests `x_modulus % 2 == 0` and `x_modulus % 2 == 1` or `x_modulus % 2 == -1` are exhaustive and exclusive for every integer, negative ones included |
| `HexagonalPixelDetectorModel.BandOf` | src/core/geometry/HexagonalPixelDetectorModel.hpp:41 | in lattice units the band is the row position modulo 6, always in 0..5 |
| `HexagonalPixelDetectorModel.CorrectionRules` | src/core/geometry/HexagonalPixelDetectorModel.hpp:48-95 | bands 1-2 keep the first guess; band 0 only moves one row down and band 3 only one row up; bands 4-5 always move one row up, to the left column for even x_modulus and in the same column for odd; the column is otherwise the first guess or the left column, the latter only for even x_modulus; a point exactly on a slanted line gets no correction; any other band gives the default (-1,-1), which the final shift would make (-2,-2) |
| `HexagonalPixelDetectorModel.Correct` | src/core/geometry/HexagonalPixelDetectorModel.hpp:48-95 | the switch on `y_modulus % 6` applied to the one-based first guess; what each band does is the contract of CorrectionRules |
| `HexagonalPixelDetectorModel.PixelIndexOf` | src/core/geometry/HexagonalPixelDetectorModel.hpp:33-98 | getPixelIndex's computation with the column of the left-moving branches as a parameter: the shift by (pitch/2, side), the first guess (ceil(posx/pitch), 2 floor(posy/(3 side)) + 1), the switch, and the shift to zero-based indices |
| `HexagonalPixelDetectorModel.GetPixelIndex` | src/core/geometry/HexagonalPixelDetectorModel.hpp:33-98 | getPixelIndex as written, with the left column ceil(posx/pitch) - 1; what it returns is the contract of GetPixelIndexCandidates, GetPixelIndexVersusCorrected, GetPixelIndexContains and the two shift lemmas |
| `HexagonalPixelDetectorModel.GetPixelIndexCandidates` | src/core/geometry/HexagonalPixelDetectorModel.hpp:45-98 | with C = ceil(posx / pitch) and F = floor(posy / (3 side)), the column is C - 1 or C - 2 and the row 2F - 1, 2F or 2F + 1 |
| `HexagonalPixelDetectorModel.GetPixelIndexCorrectedContains` | src/core/geometry/HexagonalPixelDetectorModel.hpp:33-98 | with the left column taken as floor(posx / pitch), the returned pixel's hexagon contains the position, for every position |
| `HexagonalPixelDetectorModel.GetPixelIndexVersusCorrected` | src/core/geometry/HexagonalPixelDetectorModel.hpp:45-98 | the source's result differs from the corrected one exactly when posx is a multiple of the pitch and the row is not the first-guess row, and then it is the corrected pixel's left neighbour |
| `HexagonalPixelDetectorModel.GetPixelIndexContains` | src/core/geometry/HexagonalPixelDetectorModel.hpp:33-98 | as written, the returned pixel contains the position whenever posx is not a multiple of the pitch |
| `HexagonalPixelDetectorModel.CentreCoordinates` | src/core/geometry/HexagonalPixelDetectorModel.hpp:27-31 | pixel (i, j) is centred at (i pitch + (j odd ? pitch/2 : 0), 1.5 j side), at integer lattice coordinates |
| `HexagonalPixelDetectorModel.GetPixelIndexOfCentre` | src/core/geometry/HexagonalPixelDetectorModel.hpp:33-98 | the corrected algorithm maps every pixel centre to its pixel; as written, the centre of every odd-row pixel is mapped to its left neighbour |
| `HexagonalPixelDetectorModel.GetPixelIndexCounterexample` | src/core/geometry/HexagonalPixelDetectorModel.hpp:45-98 | the centre (pitch/2, 1.5 side) of pixel (0,1) is reported as (-1,1), whose hexagon does not contain it; the corrected algorithm reports (0,1) |
| `HexagonalPixelDetectorModel.LatticeShifts` | src/core/geometry/HexagonalPixelDetectorModel.hpp:37-38 | a shift by one pitch or by three sides moves the lattice coordinates by 2 or 6 |
| `HexagonalPixelDetectorModel.GetPixelIndexShiftColumn` | src/core/geometry/HexagonalPixelDetectorModel.hpp:37-46 | shifting x by one pitch moves the result exactly one column right, same row |
| `HexagonalPixelDetectorModel.GetPixelIndexShiftRow` | src/core/geometry/HexagonalPixelDetectorModel.hpp:37-46 | shifting y by three sides moves the result exactly two rows up, same column |
| `HexagonalPixelDetectorModel.GetGridSize` | src/core/geometry/HexagonalPixelDetectorModel.hpp:106-117 | getGridSize: nx pitches wide, the height by the parity of ny; what it measures is the contract of GetGridSizeExtent |
| `HexagonalPixelDetectorModel.GetGridSizeExtent` | src/core/geometry/HexagonalPixelDetectorModel.hpp:106-117 | the width is nx pitches; for ny >= 1 the height spans from the bottom corner of row 0 to the top corner of row ny - 1; for ny = 0 it is side / 2 |
| `HexagonalPixelDetectorModel.GetGridSizeTwoRows` | src/core/geometry/HexagonalPixelDetectorModel.hpp:111-115 | two more rows add exactly 3 side to the height and leave the width unchanged |
| `HexagonalPixelDetectorModel.GetGridSizeIncreasing` | src/core/geometry/HexagonalPixelDetectorModel.hpp:107-115 | the width grows strictly with nx and the height strictly with ny |
| `CRYAbsParameter.IndexOf` | src/modules/DepositionCosmics/cry/CRYAbsParameter.cc:73-74 | std::string::find: the first position holding the character, or none when no position does |
| `CRYAbsParameter.GetLine` | src/modules/DepositionCosmics/cry/CRYAbsParameter.cc:56-57 | std::getline: with eof set nothing changes; otherwise the result holds no delimiter and is the text up to the delimiter, which is consumed, or up to the end, which sets eof |
| `CRYAbsParameter.Substr` | src/modules/DepositionCosmics/cry/CRYAbsParameter.cc:87 | std::string::substr(pos, count): at most count characters from pos, exactly count when they are there, and the rest of the string otherwise |
| `CRYAbsParameter.JoinSplit` | src/modules/DepositionCosmics/cry/CRYAbsParameter.cc:63-64 | the fields delivered by repeated getline calls, joined with the delimiter, give back the text |
| `CRYAbsParameter.SplitJoin` | src/modules/DepositionCosmics/cry/CRYAbsParameter.cc:63-64 | delimiter-free fields joined with the delimiter are delivered back as exactly those fields |
| `CRYAbsParameter.SplitFieldsFree` | src/modules/DepositionCosmics/cry/CRYAbsParameter.cc:63-64 | no delivered field contains the delimiter |
| `CRYAbsParameter.ReadSides` | src/modules/DepositionCosmics/cry/CRYAbsParameter.cc:52-57 | lhs is the first '='-field of the line and rhs the second, or "" when there is no '=' |
| `CRYAbsParameter.LhsAndRhs` | src/modules/DepositionCosmics/cry/CRYAbsParameter.cc:56-57 | with a first '=' at k, lhs is the text before k and rhs the text after it up to the next '=' |
| `CRYAbsParameter.ReadName` | src/modules/DepositionCosmics/cry/CRYAbsParameter.cc:60-70 | the first loop's name is the concatenation of all space-fields of lhs but the first, empty fields included |
| `CRYAbsParameter.NameReference` | src/modules/DepositionCosmics/cry/CRYAbsParameter.cc:60-70 | with a first space at k, the name is the rest of lhs after k with every space removed |
| `CRYAbsParameter.NameWithoutSpace` | src/modules/DepositionCosmics/cry/CRYAbsParameter.cc:60-70 | a left-hand side without a space gives the empty name |
| `CRYAbsParameter.NameHasNoSpace` | src/modules/DepositionCosmics/cry/CRYAbsParameter.cc:64-68 | the name never contains a space |
| `CRYAbsParameter.RegionNoOpen` | src/modules/DepositionCosmics/cry/CRYAbsParameter.cc:76-80 | a right-hand side without '{' is rejected as a missing '{' |
| `CRYAbsParameter.RegionNoClose` | src/modules/DepositionCosmics/cry/CRYAbsParameter.cc:81-85 | a '{' without any '}' is rejected as a missing '}' |
| `CRYAbsParameter.RegionReference` | src/modules/DepositionCosmics/cry/CRYAbsParameter.cc:73-87 | the region is the text strictly between the first '{' and the first '}', or, when '}' comes first, the rest of rhs after '{' |
| `CRYAbsParameter.RegionBetween` | src/modules/DepositionCosmics/cry/CRYAbsParameter.cc:87 | the unsigned length stop - start - 1 wraps around when stop < start, so substr runs to the end |
| `CRYAbsParameter.ReadValue` | src/modules/DepositionCosmics/cry/CRYAbsParameter.cc:88-102 | the second loop returns the one non-empty space-field of the region, "" when there is none, and fails with ExtraData on a second one |
| `CRYAbsParameter.ValuePadded` | src/modules/DepositionCosmics/cry/CRYAbsParameter.cc:88-102 | a space-free token between any runs of spaces is the value |
| `CRYAbsParameter.ValueExtraData` | src/modules/DepositionCosmics/cry/CRYAbsParameter.cc:93-98 | two non-space characters with a space between them are rejected as extra data |
| `CRYAbsParameter.ValueHasNoSpace` | src/modules/DepositionCosmics/cry/CRYAbsParameter.cc:91-101 | an accepted value never contains a space |
| `CRYAbsParameter.Parse` | src/modules/DepositionCosmics/cry/CRYAbsParameter.cc:50-103 | the constructor as a function: name from the first '='-field, the braces and the single token of the second; Construct is proved equal to it, and ParseRoundTrip, NameReference, RegionReference, ValuePadded and ValueExtraData state what it returns |
| `CRYAbsParameter.ParsedHasNoSpace` | src/modules/DepositionCosmics/cry/CRYAbsParameter.cc:60-102 | a parsed name and a parsed value never contain a space |
| `CRYAbsParameter.Construct` | src/modules/DepositionCosmics/cry/CRYAbsParameter.cc:50-103 | the constructor's outcome: the name and value, or the missing-'{', missing-'}' or extra-data error, in that order of precedence |
| `CRYAbsParameter.ParseRoundTrip` | src/modules/DepositionCosmics/cry/CRYAbsParameter.cc:50-103 | a well-formed line `type name = {value}` parses back to exactly that name and value |
| `CRYAbsParameter.PrintInjective` | src/modules/DepositionCosmics/cry/CRYAbsParameter.cc:105-108 | print writes `Parameter name: <name>  value: <value>` and a newline; two parsed parameters print the same line only when they are equal |
| `CRYAbsParameter.Print` | src/modules/DepositionCosmics/cry/CRYAbsParameter.cc:105-108 | the line `Parameter name: <name>  value: <value>` and a newline; PrintInjective and ParsedPrintInjective state that it loses nothing |
| `CRYAbsParameter.ParsedPrintInjective` | src/modules/DepositionCosmics/cry/CRYAbsParameter.cc:50-108 | two lines that parse print the same text only when they parse to the same parameter |
| `StaticModuleManager.StaticModuleManager.constructor` | src/core/module/StaticModuleManager.cpp:21 | a new manager keeps its generator and starts with an empty registry and an empty run queue |
| `StaticModuleManager.StaticModuleManager.Create` | src/core/module/StaticModuleManager.cpp:21-25 | construction fails exactly when the generator function is null |
| `StaticModuleManager.StaticModuleManager.GetFactory` | src/core/module/StaticModuleManager.cpp:87-92 | get_factory returns the generator's factory, and raises InstantiationError for that name exactly when it is null |
| `StaticModuleManager.StaticModuleManager.AdmitInstance` | src/core/module/StaticModuleManager.cpp:45-75 | the inner loop's body: a new unique name is appended and registered; a smaller stored priority value drops the new instance; an equal one is an ambiguity; a larger one replaces the stored module |
| `StaticModuleManager.StaticModuleManager.LoadConfiguration` | src/core/module/StaticModuleManager.cpp:32-77 | one section: skipped when its name is empty, an InstantiationError when the factory is null, and otherwise its instances admitted in order up to the first exception |
| `StaticModuleManager.StaticModuleManager.Load` | src/core/module/StaticModuleManager.cpp:27-84 | load is the fold over the sections; only when nothing throws does every module of modules_ join the run queue, in list order |
| `StaticModuleManager.StaticModuleManager.LoadSections` | src/core/module/StaticModuleManager.cpp:32-77 | the loop over the sections equals the fold LoadConfigs, stopping at the first exception, and leaves the run queue alone |
| `StaticModuleManager.StaticModuleManager.AddAllToRunQueue` | src/core/module/StaticModuleManager.cpp:80-82 | add_to_run_queue is called for every module of modules_, in list order |
| `StaticModuleManager.Erase` | src/core/module/StaticModuleManager.cpp:55 | std::list::erase leaves every module except the erased one, and leaves a list without it unchanged |
| `StaticModuleManager.EraseAt` | src/core/module/StaticModuleManager.cpp:55 | erasing a module held once removes exactly that element and keeps the order of the others |
| `StaticModuleManager.Insert` | src/core/module/StaticModuleManager.cpp:72-74 | emplace_back appends the new module at the end of modules_; both maps map it and its unique name to each other, and every other entry of either map keeps its value; the serial counter is untouched |
| `StaticModuleManager.Drop` | src/core/module/StaticModuleManager.cpp:54-56 | the module stored under the name is erased from modules_; the name and the module leave their maps and every other entry stays; the serial counter is untouched |
| `StaticModuleManager.DropKeepsOrder` | src/core/module/StaticModuleManager.cpp:54-56 | in a consistent registry dropping a name removes one element of modules_ and keeps the order of the rest |
| `StaticModuleManager.EraseOnce` | src/core/module/StaticModuleManager.cpp:55 | in a list without duplicates, erasing a listed module removes it at its position and keeps the rest in order |
| `StaticModuleManager.Admit` | src/core/module/StaticModuleManager.cpp:49-74 | every instance takes a fresh serial; a new unique name appends the instance and registers it; a smaller stored priority value drops the instance and changes nothing else; an equal one throws AmbiguousInstantiationError for the section and changes nothing else; a larger one erases the stored module and appends the instance in its place |
| `StaticModuleManager.AdmitAll` | src/core/module/StaticModuleManager.cpp:45-75 | a section's instances only ever throw AmbiguousInstantiationError for that section, and without an exception each of them took one serial |
| `StaticModuleManager.LoadConfig` | src/core/module/StaticModuleManager.cpp:33-76 | a section with an empty name changes nothing; InstantiationError for the section is thrown exactly when its name is non-empty and the factory is null; any exception names the section |
| `StaticModuleManager.LoadConfigs` | src/core/module/StaticModuleManager.cpp:32-77 | every exception of load names a section with a non-empty name, and the serial counter never goes back |
| `StaticModuleManager.AdmitValid` | src/core/module/StaticModuleManager.cpp:49-74 | admitting an instance keeps modules_ duplicate-free and the two maps exact inverses over modules_ |
| `StaticModuleManager.AdmitAllValid` | src/core/module/StaticModuleManager.cpp:45-75 | the inner loop keeps that invariant |
| `StaticModuleManager.LoadConfigsValid` | src/core/module/StaticModuleManager.cpp:27-84 | load keeps that invariant, whether it finishes or throws |
| `StaticModuleManager.UniqueNames` | src/core/module/StaticModuleManager.cpp:49-74 | in a consistent registry no two modules share a unique name |
| `StaticModuleManager.AdmitMonotone` | src/core/module/StaticModuleManager.cpp:49-74 | an instance that does not throw leaves every stored name stored with a priority value no larger, and stores its own name with a value no larger than its own |
| `StaticModuleManager.AdmitAllMinimum` | src/core/module/StaticModuleManager.cpp:45-75 | after a section without exception every unique name seen is stored with the smallest priority value among its candidates, and its stored identifier is one of them |
| `StaticModuleManager.AdmitTwice` | src/core/module/StaticModuleManager.cpp:58-60 | the same unique name instantiated twice with the same priority raises AmbiguousInstantiationError |
| `StaticModuleManager.AdmitAllStops` | src/core/module/StaticModuleManager.cpp:59 | after an ambiguity no further instance of the section is looked at |
| `StaticModuleManager.LoadConfigsStops` | src/core/module/StaticModuleManager.cpp:39 | after an exception no further section is looked at |
| `StaticModuleManager.LoadSkipsEmpty` | src/core/module/StaticModuleManager.cpp:33-36 | load behaves exactly as if the sections with an empty name were not there |
| `PassiveMaterialConstructionG4.VolumesOfAppend` | src/modules/GeometryBuilderGeant4/PassiveMaterialConstructionG4.cpp:54-56 | the volumes of two batches of configurations are those of the first followed by those of the second |
| `PassiveMaterialConstructionG4.MotherIndex` | src/modules/GeometryBuilderGeant4/PassiveMaterialConstructionG4.cpp:64-66 | std::find_if: the first volume carrying the mother's name, or none |
| `PassiveMaterialConstructionG4.Hierarchy` | src/modules/GeometryBuilderGeant4/PassiveMaterialConstructionG4.cpp:62-68 | the depth is at least 1 and at most one more than the number of steps the mother chain takes |
| `PassiveMaterialConstructionG4.HierarchyAnyBound` | src/modules/GeometryBuilderGeant4/PassiveMaterialConstructionG4.cpp:62-68 | the depth depends only on the volume and the list |
| `PassiveMaterialConstructionG4.DepthOfMother` | src/modules/GeometryBuilderGeant4/PassiveMaterialConstructionG4.cpp:62-68 | the depth is 1 exactly when no listed volume carries the mother's name, and otherwise one more than the depth of the first that does |
| `PassiveMaterialConstructionG4.SortByHierarchy` | src/modules/GeometryBuilderGeant4/PassiveMaterialConstructionG4.cpp:70-75 | the sorted list is a permutation of the input with depths non-decreasing |
| `PassiveMaterialConstructionG4.SortedOrder` | src/modules/GeometryBuilderGeant4/PassiveMaterialConstructionG4.cpp:70-75 | in the sorted list a strictly smaller depth comes strictly earlier |
| `PassiveMaterialConstructionG4.MotherBeforeDependant` | src/modules/GeometryBuilderGeant4/PassiveMaterialConstructionG4.cpp:58-75 | after the sort a volume's mother is in the list and every copy of it comes before the volume |
| `PassiveMaterialConstructionG4.PassiveMaterialConstructionG4.constructor` | src/modules/GeometryBuilderGeant4/PassiveMaterialConstructionG4.cpp:48 | a new construction holds no volumes and has built none |
| `PassiveMaterialConstructionG4.PassiveMaterialConstructionG4.RegisterVolumes` | src/modules/GeometryBuilderGeant4/PassiveMaterialConstructionG4.cpp:50-76 | the volumes afterwards are a permutation of the old ones followed by one volume per configuration in configuration order, sorted by depth with respect to that list |
| `PassiveMaterialConstructionG4.PassiveMaterialConstructionG4.BuildVolumes` | src/modules/GeometryBuilderGeant4/PassiveMaterialConstructionG4.cpp:78-83 | buildVolume is called once per volume, in list order |

## Left out

- Floating point: positions, pitches and extents are exact reals. Rounding, and the `static_cast<int>` overflow of very large coordinates, are not modelled.
- std::sqrt(3) is the parameter `r3` with `r3 * r3 == 3` and `r3 > 0`.
- getPixelSize and getNPixels come from the detector configuration (DetectorModel is not part of this model). They are the parameters pitch, nx and ny.
- HexagonalPixelDetectorModel.GetGridSizeExtent: for an empty grid (ny = 0) one would expect a height of 0. The code gives side / 2, and the model follows the code.
- The default branch of the switch is unreachable (YModulusRange). It is still modelled, with the code's (-1,-1) before the final shift to zero-based indices.
- CRYAbsParameter: LOG output is not modelled. assert(0) is modelled as aborting the construction with an error. A build with NDEBUG would carry on instead, which is not modelled.
- CRYAbsParameter: strcmp on c_str() stops at an embedded NUL character. The model treats strings as sequences without a terminator. The test against " " is always true, because a getline field never holds its own delimiter.
- CRYAbsParameter: the stream's failbit is not tracked. In this parser it is only ever raised together with eof, and eof is what the loops test.
- CRYAbsParameter.ParseRoundTrip: requires a value shorter than 2^64 characters, the range of std::string::size_type.
- CRYAbsParameter.RegionReference: requires a right-hand side shorter than 2^64 characters, for the same reason.
- CRYAbsParameter.PrintInjective: the std::ostream and its flush by std::endl are not modelled. The printed line is a string, and the unused bool parameter of print is dropped.
- StaticModuleManager: the messenger and the geometry manager are only handed to the factories and are not modelled. A factory is a function from its section to the identifiers of the instances it creates.
- StaticModuleManager: Module::init() is not modelled. The model records only which modules enter the registry.
- StaticModuleManager: add_to_run_queue belongs to the base module manager, which is not part of this model. It is modelled as appending to a run queue.
- StaticModuleManager: ModuleIdentifier is not part of this model. Its maps are taken to compare identifiers by unique name only, as the priority test after `find` presumes. A module's address is modelled as a serial number that is never reused.
- PassiveMaterialConstructionG4: getPassiveElements and the construction of PassiveMaterialVolume from its configuration come from files that are not part of this model. A configuration is the pair (name, mother volume).
- PassiveMaterialConstructionG4: the Geant4 work of buildVolume (materials, placement, the world volume) is not modelled. Only its call order is.
- PassiveMaterialConstructionG4.PassiveMaterialConstructionG4.RegisterVolumes: requires acyclic mother chains. On a cycle the recursion of `hierarchy` does not terminate.
- PassiveMaterialConstructionG4.SortByHierarchy: std::sort's algorithm and its order among volumes of equal depth are unspecified. The model promises only what std::sort promises: a permutation ordered by the comparator. It reaches it by insertion sort.

## Findings

| source | as written | input that shows it | evidently intended | confidence | as-written member | corrected member |
|---|---|---|---|---|---|---|
| src/core/geometry/HexagonalPixelDetectorModel.hpp:45 | the three branches that move into the row to the left (lines 53, 71, 84) take column ceil(posx / pitch) - 1 | the centre (pitch/2, 1.5 side) of pixel (0,1): posx / pitch is exactly 1, and the result is (-1,1); the centre of every odd-row pixel is likewise mapped to its left neighbour | the left column floor(posx / pitch), which equals ceil(posx / pitch) - 1 except when posx is an exact multiple of the pitch | medium: not executed; proved on exact reals, and in floating point the bad case needs posx / pitch to be an exact integer | `HexagonalPixelDetectorModel.GetPixelIndexCounterexample` | `HexagonalPixelDetectorModel.GetPixelIndexCorrectedContains` |
