# Symmetric-state visualisation utilities, modelled in Dafny

This project models the geometric core of the visualisation script for
morphological symmetries of a legged robot. It also models the small helpers
of the utility module the script uses.

- **Reflections and homogeneous transforms** (`geometry.dfy`):
  - `reflex_matrix` builds the Householder reflection `I - 2 a aᵀ / (aᵀ a)` of a 3x1 normal.
  - `homogenousMatrix` writes a rotation and a translation into a 4x4 array, following numpy's slice assignment and broadcasting.
  - `reflection_transformation` builds the homogeneous transform of the reflection about a plane given by a normal and a point.
  - `SE3_2_gen_coordinates` reads back the position of a pose.
  - The two pytransform3d calls the script relies on (`transform_from`, `transform`) are modelled as block construction and matrix–vector product.
- **The orbit loop** (`orbit.dfy`). Lines 305–352 of the script take one measured sample (joint state `x = [q, dq]`, momentum, base pose, two contact forces and their points of application). For every non-identity group action they append the image of each quantity to its own list. Afterwards each state is split into its `q` and `dq` halves.
- **Utilities** (`permutations.dfy`, `pprint.dfy`, `slugify.dfy`, `symbolic.dfy`, `dictmerge.dfy`):
  - `permutation_matrix` and `is_canonical_permutation`;
  - `pprint_dict`;
  - `slugify`;
  - the entry names of `symbolic_matrix`;
  - `append_dictionaries`.
- **Shared pieces:** `linalg.dfy` holds vectors and matrices over `real` with the few algebraic facts the proofs need. `wrappers.dfy` holds `Result` and `Option`.

Numbers are mathematical reals: there is no floating-point rounding. A call that numpy would abort on the inputs modelled here is a `Failure`: an assertion, an `IndexError`, or a broadcasting `ValueError`. So is a zero normal, for which numpy produces a matrix of NaNs.

## Model

| member | source | states |
|---|---|---|
| Geometry.ReflexMatrix | paper/robot_visualization.py:151-155 | succeeds exactly for a 3x1 column with nonzero norm; fails with a shape error exactly when the argument is not a 3x1 column (a 1-D vector included); the result is the Householder matrix of the column |
| Geometry.Householder | paper/robot_visualization.py:155 | `I - 2 a aᵀ/(aᵀa)` is a symmetric 3x3 matrix |
| Geometry.HouseholderApply | paper/robot_visualization.py:155 | the reflection maps v to `v - (2 a·v / a·a) a` |
| Geometry.HouseholderNegatesNormal | paper/robot_visualization.py:155 | the normal is reversed: `K a = -a` |
| Geometry.HouseholderFixesPlane | paper/robot_visualization.py:155 | every vector orthogonal to the normal is fixed |
| Geometry.HouseholderTwice | paper/robot_visualization.py:155 | reflecting any vector twice gives it back |
| Geometry.HouseholderInvolution | paper/robot_visualization.py:155 | `K K = I` for every nonzero normal |
| Geometry.HouseholderOrthogonal | paper/robot_visualization.py:155 | `K Kᵀ = I`: the reflection is orthogonal |
| Geometry.HouseholderDeterminant | paper/robot_visualization.py:155 | `det K = -1`: the reflection reverses orientation |
| Geometry.RankOneDet | paper/robot_visualization.py:155 | `det (I - c a aᵀ) = 1 - c (a·a)` for every scalar c and 3-vector a |
| Geometry.HomogenousMatrix | paper/robot_visualization.py:158-163 | succeeds exactly when T has 1 or 4 entries and R broadcasts into the 3x3 block; the block holds R (broadcast), the bottom row starts with three zeros, and column 3 is T, overwriting the 1 at (3, 3); for a 3x3 R and a 4-entry T, the result is `[[R, T[:3]], [0 0 0 1]]` exactly when T's last entry is 1 |
| Geometry.HomogenousIsTransformFrom | paper/robot_visualization.py:158-163 | a 4x4 array filled as `homogenousMatrix` fills it is the homogeneous transform of (R, T[:3]) if and only if `T[3] = 1` |
| Geometry.TransformFrom | paper/robot_visualization.py:173 | `transform_from(R, p)` is the 4x4 block matrix with R top-left, p in column 3 and bottom row `[0, 0, 0, 1]` |
| Geometry.Point | paper/robot_visualization.py:336 | `vector_to_point(v)` has four coordinates: v followed by 1 |
| Geometry.Transform | paper/robot_visualization.py:336 | `transform(X, h)` of a 4x4 matrix and a 4-vector is a 4-vector |
| Geometry.ApplyToPoint | paper/robot_visualization.py:341-342 | the transformed contact point, cut to its first three coordinates, is a 3-vector |
| Geometry.TransformFromApply | paper/robot_visualization.py:336 | applying `[[R, t], [0 0 0 1]]` to the homogeneous point of p gives the homogeneous point of `R p + t` |
| Geometry.ApplyTransformFrom | paper/robot_visualization.py:341-342 | the first three coordinates of the transformed point are `R p + t` |
| Geometry.ReflectionTransformation | paper/robot_visualization.py:166-174 | succeeds exactly when the normal (flat or a column) has 3 entries and nonzero norm and the point has 3 entries; the result is `[[K, 2 (p·n) n], [0 0 0 1]]` with K the Householder matrix of n |
| Geometry.FlatNormalAsColumn | paper/robot_visualization.py:168-169 | a 1-D normal gives the same transform as its expansion to a 3x1 column |
| Geometry.ReflectionBottomRow | paper/robot_visualization.py:173 | the bottom row of every reflection transform is `[0, 0, 0, 1]` |
| Geometry.ReflectionTwiceIsIdentity | paper/robot_visualization.py:166-174 | applying the reflection transform twice to any point gives the point back, for every nonzero normal |
| Geometry.PlanePointFixedIff | paper/robot_visualization.py:171-172 | the given point of the plane is fixed by the transform if and only if the normal has unit length or the point lies on the parallel plane through the origin (the translation is not divided by `n·n`) |
| Geometry.Position | paper/robot_visualization.py:182-184 | reading the position succeeds exactly for a 4x4 matrix and gives its column 3 without the bottom entry: `X[0][3], X[1][3], X[2][3]` |
| Geometry.PositionOfTransformFrom | paper/robot_visualization.py:182-184 | the position read back from `[[R, p], [0 0 0 1]]` is p |
| Orbit.ZipLength | paper/robot_visualization.py:308-312 | the loop runs no more often than any of the four action lists without their identity element, or the offset list, allows |
| Orbit.ZipLengthIsShortest | paper/robot_visualization.py:308-312 | the number of iterations equals the length of one of the zipped lists: the zip stops when its shortest input runs out |
| Orbit.GenerateOrbit | paper/robot_visualization.py:305-352 | every list has one entry more than there are iterations; entry 0 of each list is the original sample with the identity transform; entry k is the image of the original sample under the k-th action; every `Gq[k] ++ Gdq[k]` is `Gx[k]`, cut into equal halves |
| Orbit.CollectImages | paper/robot_visualization.py:305-343 | the eight lists hold, position by position, the original sample followed by its image under each action of the zip |
| Orbit.ActOnce | paper/robot_visualization.py:320-343 | one iteration of the loop body computes the image of the sample under action k |
| Orbit.Original | paper/robot_visualization.py:305-306 | entry 0 of the orbit keeps every measurement of the sample; its group element is the 4x4 identity; its base pose has RB as rotation block and rB as position |
| Orbit.IdentityTransform | paper/robot_visualization.py:306 | `[[I, 0], [0 0 0 1]]` is the 4x4 identity |
| Orbit.Act | paper/robot_visualization.py:320-343 | the image of the state has the length of the state representation's output, and the image of the momentum that of the momentum representation's |
| Orbit.HoldsAppend | paper/robot_visualization.py:324-343 | appending one image to each of the eight lists keeps the lists in step with the sequence of images |
| Orbit.Expected | paper/robot_visualization.py:305-343 | every state in the orbit has even length, so that it can be split into q and dq |
| Orbit.Split | paper/robot_visualization.py:351 | `np.split(x, 2)` yields two halves of equal length whose concatenation is x |
| Orbit.SplitStates | paper/robot_visualization.py:351-352 | `Gq` and `Gdq` have one entry per state, and entry k of each is the first or second half of `Gx[k]` |
| Orbit.ActGeometry | paper/robot_visualization.py:320-343 | under an action: the state and momentum are multiplied by their representations; forces are rotated and never translated; contact points and the base position are moved to `R p + r`; the group transform is `[[R, r], [0 0 0 1]]`; the base pose becomes `[[R RB R, R rB + r], [0 0 0 1]]`, whose position is `R rB + r` |
| Orbit.IdentityActionIsOriginal | paper/robot_visualization.py:305-306 | the identity action maps the sample to entry 0 of the orbit, so entry 0 is the image of the identity |
| Orbit.InvolutiveRotationIsConjugation | paper/robot_visualization.py:335 | for an orthogonal R with `R R = I`, the base rotation `R RB R` equals the change of frame `R RB Rᵀ` |
| Orbit.ReflectionActionIsConjugation | paper/robot_visualization.py:335 | for every Householder reflection, `K RB K = K RB Kᵀ` |
| Orbit.QuarterTurnBaseRotation | paper/robot_visualization.py:331-335 | for a quarter turn about z, `R RB R` equals neither `R RB Rᵀ` nor `R RB`: the formula is not a change of frame for rotations |
| Permutations.PermMatrix | utils/utils.py:57-59 | row i of the matrix is the basis vector selected by the absolute value of `p_i` |
| Permutations.PermutationMatrix | utils/utils.py:55-60 | succeeds exactly when there is at least one entry, the signed entries are pairwise different and every absolute value is below d; the empty notation fails with the index error; fails with the duplicate error exactly when some entry repeats; the result is the matrix with a 1 at `(i, abs(p_i))` and 0 elsewhere |
| Permutations.IsCanonicalPermutation | utils/utils.py:63-64 | the check holds exactly when every entry of `P @ P` equals the matching entry of the identity |
| Permutations.UniqueCountIffDistinct | utils/utils.py:58 | the number of unique values equals the length if and only if no value occurs twice |
| Permutations.RowHasSingleOne | utils/utils.py:59 | every row holds exactly one 1, in column `abs(p_i)` |
| Permutations.ColumnHasSingleOne | utils/utils.py:59 | when the absolute values are pairwise different, every column also holds exactly one 1 |
| Permutations.SignedDuplicateCounterexample | utils/utils.py:58-59 | `(1, -1)` passes the unique-value check, yet column 1 receives two 1s |
| Permutations.SquareEntry | utils/utils.py:64 | entry (i, k) of `P @ P` is 1 exactly when `abs(p[abs(p_i)]) = k` |
| Permutations.CanonicalIffInvolution | utils/utils.py:63-64 | `P @ P = I` if and only if applying the absolute one-line notation twice gives every index back |
| Permutations.SelfTest | utils/utils.py:100-104 | `(2, 3, 0, 1)` passes the check and its matrix is canonical |
| PrettyPrint.LessIrreflexive | utils/utils.py:18 | no string sorts before itself |
| PrettyPrint.LessTransitive | utils/utils.py:18 | string order is transitive |
| PrettyPrint.LessTotal | utils/utils.py:18 | of two different strings, one sorts first |
| PrettyPrint.SortByKey | utils/utils.py:18 | sorting the items keeps exactly the same items |
| PrettyPrint.SortByKeySorted | utils/utils.py:18 | sorting items with different keys puts them in strictly ascending key order |
| PrettyPrint.SortedUnique | utils/utils.py:18 | only one arrangement of a collection of items is in ascending key order |
| PrettyPrint.Pprint | utils/utils.py:16-21 | the text is empty exactly for the empty dictionary |
| PrettyPrint.PprintDict | utils/utils.py:16-21 | the text is the "-"-join of "k=v" over the sorted items |
| PrettyPrint.PprintEmpty | utils/utils.py:16-21 | the empty dictionary prints as the empty string |
| PrettyPrint.PprintOrderIndependent | utils/utils.py:18 | two dictionaries with the same entries print the same, whatever their insertion order |
| PrettyPrint.PprintAscending | utils/utils.py:18-21 | the text is the join of "k=v" over the items in ascending key order, each entry once |
| Slugify.Lower | utils/utils.py:97 | lower-casing keeps the length, maps every upper-case ASCII letter to its lower-case letter (code point + 32), changes no other character, leaves no upper-case letter and keeps word characters word characters |
| Slugify.RemoveDisallowed | utils/utils.py:97 | only word characters, whitespace and '-' remain, all taken from the input; a text made only of them is unchanged |
| Slugify.RemoveDisallowedChar | utils/utils.py:97 | one character is kept exactly when it is a word character, whitespace or '-' |
| Slugify.RemoveDisallowedConcat | utils/utils.py:97 | the removal works character by character: removing from a concatenation concatenates the removals, so the kept characters stay in their order |
| Slugify.StripLeft | utils/utils.py:98 | the result is a suffix of the input that does not start with '-' or '_', and everything removed is '-' or '_' |
| Slugify.StripRight | utils/utils.py:98 | the result is a prefix of the input that does not end with '-' or '_', and everything removed is '-' or '_' |
| Slugify.Strip | utils/utils.py:98 | `strip('-_')` keeps a contiguous middle part of the text, removes only '-' and '_' on either side, and the result neither starts nor ends with '-' or '_' |
| Slugify.Collapse | utils/utils.py:98 | collapsing runs of '-' and whitespace never lengthens the text |
| Slugify.CollapseRun | utils/utils.py:87-98 | a run of '-' and whitespace between two non-separators (or the text's ends) becomes exactly one '-': `Collapse(a + (w + b)) == Collapse(a) + "-" + Collapse(b)` |
| Slugify.CollapseNoSeparators | utils/utils.py:98 | a text with no '-' and no whitespace passes through unchanged |
| Slugify.CollapsePlain | utils/utils.py:98 | collapsing keeps every character other than '-' and whitespace, in order |
| Slugify.CollapseClean | utils/utils.py:98 | collapsing runs of '-' and whitespace leaves no "--" and only slug characters; the result starts with '-' exactly when the input starts with '-' or whitespace |
| Slugify.Slug | utils/utils.py:84-98 | a slug is never longer than its ASCII input |
| Slugify.KeptIsLowered | utils/utils.py:97 | after lower-casing and removal, only lower-case word characters, whitespace and '-' remain |
| Slugify.SlugifyIsSlug | utils/utils.py:84-98 | a slug contains only lower-case ASCII letters, digits, '_' and '-', contains no whitespace and no "--", and neither starts nor ends with '-' or '_' |
| Slugify.CollapseKeepsSlug | utils/utils.py:98 | collapsing changes nothing in a text without runs or whitespace |
| Slugify.StripKeepsSlug | utils/utils.py:98 | stripping changes nothing in a finished slug |
| Slugify.SlugPassesThrough | utils/utils.py:84-98 | a finished slug is ASCII and slugifies to itself |
| Slugify.SlugifyIdempotent | utils/utils.py:84-98 | slugifying a slug again changes nothing |
| SymbolicNames.Digits | utils/utils.py:50 | "%d" of a non-negative integer is a non-empty string of decimal digits |
| SymbolicNames.DigitsRoundTrip | utils/utils.py:50 | reading back the decimal text of n gives n |
| SymbolicNames.Translate | utils/utils.py:46 | the translation keeps the length, maps each character through the table, and leaves no ASCII digit |
| SymbolicNames.SymbolicMatrix | utils/utils.py:43-52 | a rows x cols array whose entry (r, c) is the translated "base(r+1),(c+1)" |
| SymbolicNames.VarName | utils/utils.py:50-51 | the name of entry (r, c) starts with the translated base and is as long as the base and the label together; it contains no ASCII digit |
| SymbolicNames.VarNameInjective | utils/utils.py:48-51 | different entries of the matrix get different names |
| DictMerge.Get | utils/utils.py:70 | `d.get(k, 0)`: the stored value, or the integer 0 for a missing key |
| DictMerge.MergeEntry | utils/utils.py:70-78 | a key gets a value exactly when the pair of values matches one of the four rules |
| DictMerge.Merge | utils/utils.py:67-79 | the merged dictionary has only keys of the two inputs, and holds a key exactly when its two values combine |
| DictMerge.AppendDictionaries | utils/utils.py:67-79 | the loop over the union of the keys builds exactly the merged dictionary |
| DictMerge.AppendEntry | utils/utils.py:70-78 | the loop body for one key stores the combined value of the rules, recursing into nested dictionaries |
| DictMerge.OnlyInSecond | utils/utils.py:70-74 | a key that only the second dictionary has gives `[0, v2]`, whatever `v2` is |
| DictMerge.ListGainsNumber | utils/utils.py:70-72 | a list gains the number the second dictionary holds for its key, or 0 when the second dictionary lacks the key |
| DictMerge.NumberPairs | utils/utils.py:73-74 | a number in the first dictionary pairs with whatever the second holds, 0 if nothing |
| DictMerge.TensorsConcatenate | utils/utils.py:75-76 | two tensors are concatenated |
| DictMerge.NestedDicts | utils/utils.py:77-78 | two nested dictionaries are kept exactly when merging recursively, and are then merged recursively |
| DictMerge.OtherPairsDropped | utils/utils.py:71-79 | a list with a non-number, a string, a tensor with a non-tensor, or a dictionary with a non-dictionary: the key is left out |
| DictMerge.MergeEmpty | utils/utils.py:67-69 | merging two empty dictionaries gives an empty one |

## Left out

- The pybullet scene, the robot loading, the drawing of vectors and planes, the GUI and the GIF export are I/O on a foreign simulator. They are not modelled.
- `matrix_to_quat_xyzw` and the quaternion half of `SE3_2_gen_coordinates` are not modelled. They call into pytransform3d's rotation conversions.
- The pinocchio call `centroidalMomentum` (lines 345–348) and the list `Gy_B` it fills are not modelled. The call is a foreign rigid-body dynamics library. The orbit keeps the other eight lists.
- Orbit.GenerateOrbit: the shapes under which numpy's products are defined are a precondition, not an error path. These are conforming matrices, 3-vectors, and an even-length state. On other shapes the script crashes.
- `rho_E3_g_bar.todense()` is left out. The Euclidean representation is given as a dense matrix.
- Sparse and dense backings of the representations are not distinguished.
- pytransform3d's strict checks in `transform_from` and `transform` are not modelled. These are the orthonormality test of R and its warnings. The script calls `transform` with `strict_check=False`.
- Geometry.ReflexMatrix: a zero normal, for which numpy returns a matrix of NaNs with a runtime warning, is the error `DegenerateNormal`. There is no NaN among the reals.
- Geometry.HomogenousMatrix: the dtype of the array is not modelled. numpy takes it from R, so an integer R would truncate T.
- Geometry.HomogenousMatrix: R is a 2-D array. A 0-D or 1-D R, which numpy would also broadcast, is not modelled.
- Permutations.IsCanonicalPermutation: `np.allclose` is modelled as exact equality. Every entry of a permutation matrix and of its square is exactly 0 or 1, so no tolerance is needed.
- Permutations.PermutationMatrix: the assertion's message is not modelled. That message is the unique values with their counts.
- Permutations.PermutationMatrix: the notation is a tuple or list of integers. An empty integer ndarray, for which numpy returns the 0x0 matrix, is not modelled; an empty tuple or list becomes a float array that numpy refuses as an index, which is the `OutOfRange` failure.
- Slugify.Slugify: only ASCII input is modelled. The Unicode NFKD/NFKC normalisation, the dropping of non-ASCII characters, the `allow_unicode` option and Unicode case mapping are left out. `\s` is the whitespace class of a Python str pattern restricted to ASCII: tab, line feed, vertical tab, form feed, carriage return, the separators 0x1C to 0x1F and the space.
- PrettyPrint.PprintDict: keys are strings and values are given as the text that `f"{v}"` produces. Python's formatting of arbitrary objects is not modelled.
- PrettyPrint.PprintDict: a dictionary is its list of items with pairwise different keys.
- DictMerge.AppendDictionaries: tensors are 1-D sequences of reals. `torch.cat` of higher-rank tensors is not modelled. A dictionary is a map, so the insertion order of the result, which follows set iteration order in Python, is not modelled.
- SymbolicNames.SymbolicMatrix: the sympy `Symbol` objects are foreign. The array holds their names.
- `test_model_equivariance` is an empty stub.
- `configure_bullet_simulation` only configures the simulator.
- The script's configuration is given to the model as parameters rather than read. That covers the robot name, the initial configuration, the robot parameters and the random state.
