# wheeldex in Dafny

wheeldex lists what a Python wheel makes importable without installing it. It walks the
member names of the wheel archive, decides from each name's suffix (and, for `__init__.py`,
from its contents) whether the member is a module and of which kind, works out where the
member lands in `site-packages` under the wheel layout of PEP 427, and from that its dotted
module name and its parent package. From the records it infers the namespace packages:
packages declared with `pkgutil.extend_path`, and PEP 420 directories that hold modules but
no `__init__.py`. The summary is the top-level modules plus the contents of the namespace
packages, ordered by installed path.

This project models that core and proves what it promises:

- `Suffixes` (suffixes.dfy): parsing the compatibility tag and the ordered table of module
  suffixes it selects.
- `Records` (records.dfy): the record of a found module, with its installed path, module
  name and parent package.
- `Archive` (archive.dfy): the archive as the classifier sees it, an ordered list of names,
  each with its contents.
- `Classifier` (classifier.dfy): `find_module_files`, as a loop over the names whose output
  is specified by a function on the names.
- `Namespaces` (namespaces.dfy): `find_namespace_packages`, with its two passes over the
  records and its sorted output.
- `Summary` (summary.dfy): `summarise_modules`, as a sort by installed path followed by a
  filter.
- `Strings` (strings.dfy) and `StringOrder` (order.dfy): the parts of Python's `str` the
  code relies on, namely `split`, `join`, `replace`, `rpartition`, slicing and `<`.
- `WheeldexTests` (tests.dfy): the fixture archive `sample1` and the test expectations,
  proved about the model.

The loops of the source become methods with loop invariants. `GetModuleSuffixes`,
`ScanRules`, `FindModuleFiles` and `SummariseModules` are proved equal to a specification
function, and the properties are proved as lemmas about those functions.
`FindNamespacePackages` and `SortStrings` are specified by what their output holds and by its
strict ascending order, which determine it (`StringOrder.StrictlySortedUnique`).
Python's generators become sequences. A `ValueError` from a malformed tag, and a `SyntaxError`
from an `__init__.py` the namespace check cannot parse, become a `Failure` result. A missing
dictionary key becomes `None`.

## Model

| member | source | states |
|---|---|---|
| Suffixes.ParseTag | wheeldex.py:76 | Unpacking `wheel_tag.split('-')` into three names succeeds exactly when the tag holds two dashes. The three parts are dash-free and joined with dashes give back the tag. |
| Suffixes.ParseTagRoundTrip | wheeldex.py:76 | Three dash-free tag parts joined with dashes parse back to the same three parts. |
| Suffixes.SuffixTable | wheeldex.py:77-102 | The table starts with `/__init__.py`, `.py`, `.pyc`, and every later rule is an extension. On manylinux it adds the CPython suffix `.cpython-<abi[2:]>-<arch>-linux-gnu.so` for a `cp` ABI, or `.<abi>.so` for an `abi` ABI, then ends with `.so`. On `win*` it adds `.<py>-<platform>.pyd` for a `cp` Python tag, then ends with `.pyd`. On any other platform it is only the three base rules. |
| Suffixes.LinuxArch | wheeldex.py:86 | The architecture in the CPython suffix: `x86_64` when the platform tag ends with `x86_64`, otherwise `i386`. |
| Suffixes.GetModuleSuffixes | wheeldex.py:75-102 | Fails with `MalformedTag` exactly when the tag does not parse. Otherwise the list it builds by appending equals the table for the parsed tag. |
| Strings.StartsWith | wheeldex.py:83-96 | `s.startswith(prefix)`: `prefix` is the first `len(prefix)` characters of `s`. |
| Strings.EndsWith | wheeldex.py:113 | `s.endswith(suffix)`: `suffix` is the last `len(suffix)` characters of `s`; also used at lines 42, 44, 86 and 121. |
| Strings.Join | wheeldex.py:46 | `'/'.join(parts)`: the parts with one separator between each two; `SplitParts` and `SplitJoin` relate it to `Split`. |
| Strings.Split | wheeldex.py:41 | `split` always yields at least one part. |
| Strings.SplitParts | wheeldex.py:41 | The parts of `split(sep)` contain no separator. There is one more part than there are separators, and joining the parts gives back the text. |
| Strings.SplitJoin | wheeldex.py:41-46 | Splitting the join of separator-free parts gives back the parts. |
| Strings.DropLast | wheeldex.py:53 | `s[:-k]` is a prefix of `s`. Its length is `len(s) - k` for `0 < k < len(s)`, and 0 otherwise, including `k == 0`. |
| Strings.ReplaceChar | wheeldex.py:54 | `replace('/', '.')` keeps the length and changes exactly the replaced characters. |
| Strings.BeforeLast | wheeldex.py:58 | `rpartition(c)[0]` is `""` when `c` does not occur. Otherwise it is the prefix ending just before the last `c`. |
| Records.FoundModule.PathInSitePackages | wheeldex.py:39-49 | The installed path: `None` under `*.dist-info`, the rest after two components under `*.data/platlib` or `*.data/purelib`, `None` elsewhere under `*.data`, and the archive path otherwise (stated as a whole by `SitePathLayout`). |
| Records.SitePathLayout | wheeldex.py:39-49 | A `*.dist-info` first component is not installed. A `*.data` first component is installed only under `platlib`/`purelib` with at least one more component, and the rest is joined back. Any other path is installed as it is. |
| Records.DistInfoNotInstalled | wheeldex.py:41-43 | Nothing under a `*.dist-info` directory is installed. |
| Records.DataPayloadUnwrapped | wheeldex.py:44-46 | For a payload path that is itself installed unchanged at the archive root (its first component is neither `*.dist-info` nor `*.data`), the member `<x>.data/platlib/<payload>` or `<x>.data/purelib/<payload>` is installed with the same path, and gets the same module name, as the payload alone. |
| Records.OtherDataNotInstalled | wheeldex.py:44-47 | A member under any other `<x>.data/` subdirectory is not installed. |
| Records.PlainMemberInstalled | wheeldex.py:48-49 | A member whose first component is neither `*.dist-info` nor `*.data` is installed at its archive path. |
| Records.FoundModule.ModuleName | wheeldex.py:51-54 | The module name contains no `/` and is no longer than the installed path. |
| Records.ModuleNameStripsSuffix | wheeldex.py:51-54 | When the suffix is non-empty, shorter than the installed path, and ends it, the module name followed by the dotted suffix is the dotted installed path. |
| Records.TopLevelNames | wheeldex.py:51-58 | A member installed as `<stem><ext>`, with `stem` free of dots and slashes and `ext` non-empty, is the top-level module `stem`, and its parent is `""`. |
| Records.PackagedNames | wheeldex.py:51-58 | A member installed as `<dir>/<stem><ext>`, with `stem` free of dots and slashes and `ext` non-empty, is the module `<dir dotted>.<stem>`, and its parent package is `<dir dotted>`. |
| Records.FoundModule.ParentPkg | wheeldex.py:56-58 | The parent package is `""` for a dotless module name. Otherwise it is the name up to its last dot, and so shorter than the name. |
| Records.ParentPkgNoTrailingDot | wheeldex.py:56-58 | When the module name has no two adjacent dots, the parent package does not end with a dot. |
| Records.ParentPkgWithTrailingDot | wheeldex.py:51-58 | The member `a//b.py` is installed as the module `a..b`, and its parent package is `a.`. |
| Records.SameModule | wheeldex.py:30-32 | `__eq__`: two records are the same module exactly when their archive paths are equal (used by `Classifier.ClassifyAllDistinct`). |
| Archive.ZipArchive.Namelist | test_wheeldex.py:9-10 | `namelist()` lists the keys, one per entry, in insertion order. |
| Archive.ZipArchive.Read | test_wheeldex.py:12-13 | `read(path)` yields contents exactly when `path` is listed, and those contents are stored under `path`. |
| Archive.ReadReturnsStored | test_wheeldex.py:12-13 | In an archive whose keys are distinct, reading a listed name gives exactly the contents stored under it. |
| Classifier.FirstMatch | wheeldex.py:120-125 | The rule reported is the first one whose suffix the name ends with. When no rule is reported, no suffix matches. |
| Classifier.MatchRules | wheeldex.py:120-125 | A record is produced exactly when some suffix matches and the record of the first match is installed. It then carries that rule's suffix and kind. |
| Classifier.ScanRules | wheeldex.py:120-125 | The inner loop, which stops at the first matching suffix, returns the specified match. |
| Classifier.MemberFails | wheeldex.py:105-121 | A member raises when it is an `__init__.py` whose contents the check cannot parse (`ast.parse`, line 105, reached from line 115), or when it is any other member and the tag is malformed (line 76, reached from line 120). |
| Classifier.ClassifyMember | wheeldex.py:112-125 | A member fails exactly when it raises: an `__init__.py` with `BadInit(path)`, any other member with the tag's `MalformedTag`. A `*/__init__.py` member that parses is a package, whether or not it is installed, and a namespace package exactly when the check says so. Any other member goes by the suffix table. A record always carries the member's own path. |
| Classifier.ClassifyAll | wheeldex.py:111-125 | The output of the generator: the members' records in `namelist()` order, cut off by the first member that raises (partner lemmas `ClassifyAllFailure`, `ClassifyAllSound`, `ClassifyAllComplete`, `ClassifyAllOrdered`). |
| Classifier.FindModuleFiles | wheeldex.py:111-125 | The loop over `namelist()` returns the specified classification of all names. |
| Classifier.CollectFails | wheeldex.py:111-125 | A run fails exactly when some member fails, and it fails with the error of the first one. |
| Classifier.CollectFailurePersists | wheeldex.py:111-125 | Once the run has failed, later members do not change the result. |
| Classifier.ClassifyAllFailure | wheeldex.py:111-125 | Classification fails exactly when some listed member raises, and then with the error of the first such member: `BadInit(path)` for an `__init__.py` that does not parse, `MalformedTag` for any other member. |
| Classifier.ClassifyAllStopsAt | wheeldex.py:111-125 | A member that raises after members that did not ends the whole run with its error. |
| Classifier.ClassifyAllSound | wheeldex.py:111-125 | Every record comes from a listed name and is exactly what that name contributes. |
| Classifier.ClassifyAllComplete | wheeldex.py:111-125 | Every listed name that contributes a record has that record in the output. |
| Classifier.ClassifyAllOrdered | wheeldex.py:111-125 | The records follow `namelist()` order. |
| Classifier.ClassifyAllEveryMember | wheeldex.py:111-125 | When every name contributes a record, the output is exactly those records, in order. |
| Classifier.ClassifyAllExtend | wheeldex.py:111-125 | One more name that contributes a record appends that record to the output. |
| Classifier.ClassifyAllDistinct | wheeldex.py:27-32 | In an archive with distinct names, no two records are equal under `__eq__`, which compares archive paths. |
| Namespaces.IsNamespacePackage | wheeldex.py:128-142 | A name is a namespace package when a record of kind `namespace_package` has it as module name, or when it is the non-empty immediate parent of some record and no record of kind `package` has it as module name. |
| Namespaces.NamespaceSet | wheeldex.py:128-142 | The contents of `namespace_pkgs` after both loops: exactly the names `IsNamespacePackage` accepts. |
| Namespaces.FindNamespacePackages | wheeldex.py:128-144 | The output is strictly ascending and holds exactly the namespace packages. |
| Namespaces.NamespacePackageByMembers | wheeldex.py:128-142 | Whether a name is a namespace package depends only on which records there are, not on their order or repetition. |
| Namespaces.NamespacePackagesOrderIndependent | wheeldex.py:128-144 | Two record lists with the same members give the same sorted output. |
| StringOrder.Less | wheeldex.py:143 | Python's `<` on `str`: lexicographic by code point, a proper prefix first; `sorted` uses it at lines 143 and 149. |
| StringOrder.LessTotal | wheeldex.py:143 | Python's string `<` is total: two strings are equal or ordered one way round. |
| StringOrder.LessTransitive | wheeldex.py:143 | Python's string `<` is transitive. |
| StringOrder.StrictlySortedUnique | wheeldex.py:143 | Two strictly ascending sequences with the same elements are equal, so `sorted` of a set has exactly one result. |
| StringOrder.SortStrings | wheeldex.py:143 | `sorted(set)` yields a strictly ascending sequence of exactly the set's elements. |
| Summary.InsertByCount | wheeldex.py:149 | Inserting a record adds exactly that record. |
| Summary.InsertBySorted | wheeldex.py:149 | Inserting into a key-sorted sequence keeps it sorted. |
| Summary.SortBy | wheeldex.py:149 | `sorted(modules, key=...)` as a stable insertion sort (its properties are `SortByCorrect`). |
| Summary.SortByCorrect | wheeldex.py:149 | `sorted(modules, key=...)` is ascending in the key and is a rearrangement of the input. |
| Summary.Filter | wheeldex.py:150-152 | The records the condition accepts, in their order (its properties are `FilterCount` and `FilterSorted`). |
| Summary.FilterCount | wheeldex.py:149-152 | Filtering keeps each accepted record with its multiplicity and drops every other record. |
| Summary.FilterSorted | wheeldex.py:149-152 | Filtering a sorted sequence leaves it sorted. |
| Summary.SummariseModules | wheeldex.py:146-152 | The summary is ascending by installed path. It holds each record whose parent is `""` or a namespace package as often as the input does, and no other record. It equals the sorted input filtered by that condition. |
| WheeldexTests.LiteralBytes | test_wheeldex.py:16-19 | A `b'...'` literal has one byte per character, equal to the code point. |
| WheeldexTests.Sample1TagParsed | test_wheeldex.py:31 | `cp36-cp36m-manylinux1_i686` parses into `cp36`, `cp36m` and `manylinux1_i686`. |
| WheeldexTests.ManylinuxCpythonTable | wheeldex.py:83-93 | On manylinux with a `cp` ABI, the table is the base rules, the CPython suffix, then `.so`. |
| WheeldexTests.Sample1TableBuilt | wheeldex.py:83-93 | For the sample tag, the table ends with `.cpython-36m-i386-linux-gnu.so` and then `.so`. |
| WheeldexTests.Sample1Names | test_wheeldex.py:21-28 | `sample1` lists its six members in the order written. |
| WheeldexTests.ApkgRead | test_wheeldex.py:24 | `apkg/__init__.py` reads as empty. |
| WheeldexTests.Namespace2Read | test_wheeldex.py:26 | `namespace2/__init__.py` reads as the `extend_path` declaration. |
| WheeldexTests.Sample1Classified | test_wheeldex.py:30-34 | Given the facts `test_check_namespace_pkg` asserts of the check, classifying `sample1` yields exactly the six expected records, in archive order. |
| WheeldexTests.NonPythonInitAborts | test_wheeldex.py:52 | `raise = 2` does not parse, so a `sample1` holding it in `namespace2/__init__.py` stops there with `BadInit`, after the four members before it. |
| WheeldexTests.UninstalledInitYielded | wheeldex.py:113-117 | `x.data/headers/__init__.py` is yielded as a record although nothing is installed for it. |
| WheeldexTests.Sample1AllNamed | test_wheeldex.py:32-40 | The six records are installed with module names `top_level`, `top_level2`, `apkg`, `namespace1.foo`, `namespace2` and `namespace2.bar`. Their kinds are extension, source, package, source, namespace package and source. |
| WheeldexTests.TableNamespaces | wheeldex.py:128-142 | The namespace packages of a list of records depend only on their kinds, module names and parents. |
| WheeldexTests.Sample1IsNamespace | test_wheeldex.py:42-45 | Exactly `namespace1` and `namespace2` are namespace packages of `sample1`'s records. |
| WheeldexTests.Sample1Namespaces | test_wheeldex.py:42-45 | The namespace set of `sample1`'s records is `{namespace1, namespace2}`. |
| WheeldexTests.Sample1NamespacesSorted | wheeldex.py:143-144 | Any strictly sorted output with exactly those namespace packages is `[namespace1, namespace2]`. |
| WheeldexTests.FindSample1Namespaces | test_wheeldex.py:42-45 | Classifying `sample1`, then running the namespace loop on the records, yields `[namespace1, namespace2]`. |
| WheeldexTests.ImmediateParentOnly | wheeldex.py:139-142 | A lone `a/b/c.py` makes `a.b` a namespace package, and not `a`. |

## Left out

- Opening a wheel file, and parsing the tag out of its filename (`find_modules_from_whl_path`, `summary_from_whl_path`, wheeldex.py:154-161), are I/O. The archive is a value, and the tag is a parameter.
- `print_summary_from_whl_path` and the `__main__` entry point (wheeldex.py:163-186) only print.
- `check_namespace_pkg` (wheeldex.py:104-109) parses Python source with `ast` and `astsearch`, which are not part of this model. It is the parameter `nsCheck`, which answers `Some(verdict)` or `None` for the `SyntaxError` of contents that do not parse. The tests use only the facts `test_check_namespace_pkg` asserts (test_wheeldex.py:48-51), as the requirement `NamespaceCheckAgrees`.
- `test_check_namespace_pkg`'s last assertion (test_wheeldex.py:52) expects `False` for `raise = 2`. That text is not valid Python, so `ast.parse` raises `SyntaxError` and the assertion does not hold as written. The model follows the code: `WheeldexTests.NonPythonInitAborts` shows such an `__init__.py` ending the run.
- `FoundModule.__hash__`, `__repr__` and the `NamespacePackage` class (wheeldex.py:27-37, 60-73) are left out. Of them, only `__eq__` is kept, as `Records.SameModule`. `NamespacePackage` is never built by the core functions.
- Classifier.FindModuleFiles: a generator yields its records one at a time, and records yielded before a `ValueError` reach the caller. The model returns the whole list, or `Failure` alone.
- Namespaces.FindNamespacePackages and Summary.SummariseModules require every record to be installed. The code would raise `TypeError` on a record whose installed path is `None`. `find_module_files` yields such a record only for an `__init__.py` that is not installed: one under `*.dist-info`, or under a `*.data` directory other than `platlib` and `purelib` (`WheeldexTests.UninstalledInitYielded`).
- Summary.SortByCorrect: states sorted and a rearrangement. `SortBy` is an insertion sort that keeps records with equal keys in input order, as Python's stable `sorted` does, but that stability is not proved as a separate property.
- The code is followed where its behaviour differs from the documented intent:
  - only the immediate parent package is inferred as a PEP 420 namespace package (`WheeldexTests.ImmediateParentOnly`);
  - an `__init__.py` under `*.dist-info`, or under `*.data` outside `platlib` and `purelib`, still yields a record;
  - an empty path segment gives a parent package ending with a dot (`Records.ParentPkgWithTrailingDot`);
  - a module in a concrete package inside a namespace package (`ns.pkg.mod`) is not in the summary.
- `test_find_modules` compares the records as a set of names. `WheeldexTests.Sample1Classified` proves the stronger fact that the exact ordered list is produced.
- `sample1` stores the text `''` rather than bytes under `namespace2/bar.py`. That member is never read, and the model stores empty bytes.
