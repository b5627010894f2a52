# Voice-to-face evaluation core, modelled in Dafny

This project models the evaluation core of a voice-to-face reconstruction
project (`mlsp_project_code/train_eval_model.py`). A trained model turns a voice
recording into a face. The evaluation then runs one lineup per evaluated
identity. The true face is put first in the lineup, followed by faces of other
identities drawn at random from the face registry. Every candidate face is
scored against the reconstruction with a Frechet distance (`fid`). The
lineup's rank is read off the ascending order of those distances. The ranks
are summarised as a top-n accuracy curve.

The project is organised by the parts of that core:

- `wrappers.dfy`: `Option` and `Result`. These stand for Python's exceptions.
- `pystr.dfy` (`PyStrings`): the pieces of Python's string handling that the
  file-name parsers rely on. These are `str.split` with a one-character
  separator, its inverse `join`, `int(str)` (whitespace strip, optional sign,
  decimal digits) and `str(int)`.
- `filenames.dfy` (`Filenames`): `get_n_m` and `get_n`, which parse
  `…/voice_<n>_<m>.csv` and `…/face_<n>.csv`. It also holds trailing-slash
  normalisation and `get_filenames`.
- `face_dict.dfy` (`FaceDict`): `make_face_dict`, which builds the face
  registry from listed files or from given identities.
- `conv_shape.dfy` (`ConvShapes`): `conv_shape`, and the shapes the
  autoencoder's encoder goes through.
- `top_n.dfy` (`TopN`): `top_n_accuracy` and the properties of its curve.
- `lineup.dfy` (`Lineups`): `lineup`, one retrieval task.
- `evaluation.dfy` (`Evaluation`): `evaluate_model`, the loop over evaluated
  identities.

Some things are supplied by the caller, as parameters:

- the distance `fid`
- the model's `predict`
- directory listing (`glob`)
- loading a face file (`load`)

The random draw of `np.random.choice` is an input. A precondition says only
that it is a sample without replacement of the right size from the right pool.

What the code does, where a reader might expect otherwise:

- **What the rank is.** The docstring of `evaluate_model`
  (`mlsp_project_code/train_eval_model.py:563-564`) says it collects "the rank
  of the real_face" in each task. The code of `lineup` returns
  `argsort(errors)[0] + 1` instead. That is one more than the lineup position
  of the nearest candidate, not the place of the true face in the sorted
  order. So rank 1 still means "the true face won", but any other rank names
  which impostor won, not how far down the true face came. The model follows
  the code: `Lineups.Lineup` promises that the rank is one more than some
  position of smallest distance, and that it is 1 when the true face is
  strictly nearest.
- **Ties.** `np.argsort` is not a stable sort by default. Among equally near
  candidates, the model lets the method choose any one.
- **The second result of `lineup`.** It is the true face's distance
  (`errors[0]`), not the winning candidate's.
- **The length of the curve.** `top_n_accuracy` calls the number of ranks
  `lineup_length` and cuts the curve to the smaller of `n` and that number. So
  the curve's entry at the real lineup length is 1.0 only when the curve is
  that long (`Evaluation.EvaluateModel`).
- **What `evaluate_model` returns.** It returns only the curve, and writes the
  ranks to `ranks.csv`. The model returns both, as the `Evaluation` datatype.

For example, ranks `[1, 3, 2, 1, 5]` with `n = 3` give the curve
`[0.4, 0.6, 0.8]` (`TopN.CurveExample`).

## Model

| member | source | states |
|---|---|---|
| PyStrings.Split | mlsp_project_code/train_eval_model.py:348-350 | `str.split`: one field more than there are separators, and no field contains the separator |
| PyStrings.JoinSplit | mlsp_project_code/train_eval_model.py:348-350 | joining the fields of a split with the separator gives the original string back |
| PyStrings.SplitJoin | mlsp_project_code/train_eval_model.py:348-350 | splitting the join of separator-free fields gives those fields back |
| PyStrings.SplitNoSeparator | mlsp_project_code/train_eval_model.py:348 | a string without the separator splits into itself alone |
| PyStrings.SplitAfterField | mlsp_project_code/train_eval_model.py:349-350 | a separator-free prefix followed by the separator becomes the first field, and the rest splits on its own |
| PyStrings.LastFieldIsSuffix | mlsp_project_code/train_eval_model.py:348 | the last field of a split ends the string and is either all of it or preceded by the separator |
| PyStrings.LastFieldAfterSeparator | mlsp_project_code/train_eval_model.py:348 | whatever precedes the last separator, the last field is exactly what follows it |
| PyStrings.IntToString | mlsp_project_code/train_eval_model.py:275 | `str(int)` is non-empty, made of digits with at most a leading '-', and ends in a digit |
| PyStrings.ParseInt | mlsp_project_code/train_eval_model.py:351 | `int(s)` of a plain run of decimal digits is the value of those digits |
| PyStrings.ParseIntRejectsBadChar | mlsp_project_code/train_eval_model.py:351 | `int(s)` raises when any character of `s` is not a digit, a sign or one of the six whitespace characters `int` skips |
| PyStrings.ParseIntNeedsDigit | mlsp_project_code/train_eval_model.py:351 | `int(s)` raises unless `s` holds at least one digit |
| PyStrings.DigitsRoundTrip | mlsp_project_code/train_eval_model.py:351 | reading back the decimal digits of a natural number gives that number |
| PyStrings.IntRoundTrip | mlsp_project_code/train_eval_model.py:351 | `int(str(i)) == i` for every integer, negative ones included |
| Filenames.BaseName | mlsp_project_code/train_eval_model.py:348 | the base name holds no '/', ends the path, and is the whole path or follows a '/' |
| Filenames.GetNM | mlsp_project_code/train_eval_model.py:343-351 | `get_n_m` fails unless the base name has exactly one '.'; it fails unless the stem has exactly three '_' fields; it succeeds exactly when both numeric fields parse as integers, returning them |
| Filenames.GetN | mlsp_project_code/train_eval_model.py:354-362 | `get_n` fails unless there is exactly one '.' and exactly two '_' fields; it succeeds exactly when the second field parses, returning it |
| Filenames.BaseNameAfterDir | mlsp_project_code/train_eval_model.py:348 | a '/'-free name after an empty or slash-terminated directory is its own base name |
| Filenames.VoiceStemFields | mlsp_project_code/train_eval_model.py:350 | a stem `<word>_<n>_<m>` of '_'-free parts splits into exactly those three fields |
| Filenames.FaceStemFields | mlsp_project_code/train_eval_model.py:361 | a stem `<word>_<n>` of '_'-free parts splits into exactly those two fields |
| Filenames.FileNameParts | mlsp_project_code/train_eval_model.py:348-349 | a file `<dir><stem>.<ext>` has base name `<stem>.<ext>`, which splits on '.' into stem and extension |
| Filenames.GetNMRoundTrip | mlsp_project_code/train_eval_model.py:343-351 | `get_n_m` reads back the `n` and `m` written into any voice file name `<dir><word>_<n>_<m>.<ext>` |
| Filenames.GetNRoundTrip | mlsp_project_code/train_eval_model.py:354-362 | `get_n` reads back the `n` written into any face file name `<dir><word>_<n>.<ext>` |
| Filenames.WithTrailingSlash | mlsp_project_code/train_eval_model.py:290-291 | an empty path raises; otherwise the result ends in '/', extends the path by at most one character, and equals the path exactly when the path already ended in '/' |
| Filenames.WithTrailingSlashIdempotent | mlsp_project_code/train_eval_model.py:290-291 | normalising a normalised directory changes nothing |
| Filenames.GlobAll | mlsp_project_code/train_eval_model.py:282-294 | listing fails exactly when some directory is empty; every file listed is a match of the pattern under some normalised directory |
| Filenames.GetFilenames | mlsp_project_code/train_eval_model.py:288-294 | the accumulating loop of `get_filenames` returns exactly `GlobAll` of its directories |
| FaceDict.FaceFileName | mlsp_project_code/train_eval_model.py:275 | the face file name lies in the given directory and, for a slash-terminated directory, `get_n` reads the identity back from it |
| FaceDict.FaceFileNameRoundTrip | mlsp_project_code/train_eval_model.py:275 | `get_n` reads back the identity from the face file name that `make_face_dict` builds for it |
| FaceDict.FaceDictFromFiles | mlsp_project_code/train_eval_model.py:259-265 | the listed-files loop succeeds exactly when every name parses; the first unparsable name decides the error; every parsed identity is a key, and its face comes from the last file naming it |
| FaceDict.FaceDictFromIds | mlsp_project_code/train_eval_model.py:266-278 | the given-identities loop has exactly those identities as keys, each loaded from its own `face_<id>.csv` |
| FaceDict.MakeFaceDict | mlsp_project_code/train_eval_model.py:250-279 | `make_face_dict`: an empty path raises; with identities, the registry is `FaceDictFromIds` under the normalised directory; without them, it is keyed by `get_n` of the listed `face_*` files |
| ConvShapes.FloorDiv | mlsp_project_code/train_eval_model.py:541 | Python's `//` brackets the true quotient from below for a positive divisor and from above for a negative one |
| ConvShapes.ConvShape | mlsp_project_code/train_eval_model.py:540-541 | stride 0 raises; for any other stride the result r is fixed by floor division: `S*(r-1) <= L+2P-K < S*r` for a positive stride and the mirrored bounds for a negative one; with a positive stride it is at least 1 exactly when the kernel fits in the padded length |
| ConvShapes.SamePadding | mlsp_project_code/train_eval_model.py:75 | stride 1 with a kernel of size 2P+1 padded by P keeps the length |
| ConvShapes.PoolHalves | mlsp_project_code/train_eval_model.py:83 | the 2-by-2 pooling with stride 2 halves a length, rounding down |
| ConvShapes.Shapes | mlsp_project_code/train_eval_model.py:73-86 | the list of lengths starts at the input length, has one entry per layer, and each entry is `conv_shape` of the one before it; it fails exactly when some layer has stride 0 |
| ConvShapes.EncoderShapes | mlsp_project_code/train_eval_model.py:75-84 | the encoder takes a 1025 x 251 input through 1025 x 251, 512 x 125, 256 x 63, 128 x 31 and 128 x 31, as the layer comments say |
| TopN.CountAtMost | mlsp_project_code/train_eval_model.py:622 | the number of ranks at most `i` never exceeds the number of ranks |
| TopN.CurveLength | mlsp_project_code/train_eval_model.py:617-618 | the curve length is the minimum of `n` and the number of ranks, and 0 for a negative `n` |
| TopN.Curve | mlsp_project_code/train_eval_model.py:607-624 | the curve has `CurveLength` entries |
| TopN.TopNAccuracy | mlsp_project_code/train_eval_model.py:607-624 | the loop builds one entry per cutoff up to the smaller of `n` and the number of ranks, entry i being the fraction of ranks at most i+1, which is exactly `Curve` |
| TopN.CountMonotone | mlsp_project_code/train_eval_model.py:622 | raising the cutoff never lowers the count |
| TopN.CountAll | mlsp_project_code/train_eval_model.py:622 | when no rank exceeds k, all ranks are counted at cutoff k |
| TopN.CurveBounded | mlsp_project_code/train_eval_model.py:620-623 | every entry of the curve lies in [0, 1] |
| TopN.CurveMonotone | mlsp_project_code/train_eval_model.py:620-623 | the curve is non-decreasing |
| TopN.CurveReachesOne | mlsp_project_code/train_eval_model.py:620-623 | when no rank exceeds k and the curve is at least k long, its k-th entry is 1.0 |
| TopN.CurveExample | mlsp_project_code/train_eval_model.py:607-624 | ranks `[1, 3, 2, 1, 5]` with `n = 3` give `[0.4, 0.6, 0.8]` |
| Lineups.LineupFailure | mlsp_project_code/train_eval_model.py:630-635 | a lineup raises exactly when it is not between 1 and the registry size, or the true identity is not in the registry |
| Lineups.LineupWellFormed | mlsp_project_code/train_eval_model.py:633-636 | a lineup that passes its checks has the requested length, starts with the true identity, and holds distinct registered identities, the others all different from the true one |
| Lineups.Distances | mlsp_project_code/train_eval_model.py:639-642 | there is one distance per lineup position |
| Lineups.LineupDistances | mlsp_project_code/train_eval_model.py:636-642 | distance 0 is the true face's, and distance j+1 is that of the j-th sampled impostor |
| Lineups.ComputeErrors | mlsp_project_code/train_eval_model.py:639-642 | the filling loop leaves in the fresh errors array exactly the lineup's distances |
| Lineups.NearestExists | mlsp_project_code/train_eval_model.py:645-647 | a non-empty list of distances has a position of smallest distance |
| Lineups.StrictlyNearestWins | mlsp_project_code/train_eval_model.py:645-647 | when position 0 is strictly nearest, it is the only position of smallest distance |
| Lineups.Lineup | mlsp_project_code/train_eval_model.py:626-648 | `lineup` raises exactly when `LineupFailure` says, with that error; otherwise the rank lies in 1..L and is one more than a nearest position; the distance returned is the true face's; a strictly nearest true face gives rank 1 |
| Evaluation.RankAll | mlsp_project_code/train_eval_model.py:579-588 | the loop fails exactly when some identity's lineup fails, with the first such error; otherwise it returns one rank per identity, in order, each a rank that identity's lineup may return |
| Evaluation.EvaluateModel | mlsp_project_code/train_eval_model.py:560-594 | `evaluate_model` fails as `RankAll` does; otherwise the curve is `Curve` of the ranks, and its entry at the lineup length is 1.0 whenever the curve is that long |

## Left out

- The Frechet distance `fid` is not modelled. It is a caller-supplied function to reals. Left out with it are the matrix square root, floating point, whatever `sqrtm` raises, and the NaN or infinite values `fid` can return.
- Reals stand in for floating point, both in the distances and in the accuracy fractions. Rounding is not modelled.
- `np.random.choice` is not modelled. Its result is an input, constrained to be a sample without replacement of the right size from the identities other than the true one. Uniformity is not captured.
- Lineups.Lineup: among several equally near candidates, which one `np.argsort` puts first is not captured. The model allows any of them.
- `model.predict` is a caller-supplied function of the identity. The voice path argument, the neural networks, their losses and their training are not modelled.
- Reading files is not modelled. `np.loadtxt` with the `face_std` scaling is the caller-supplied `load`, and `glob` is a caller-supplied function. Neither can fail in the model.
- Progress printing, `np.savetxt`, `plot_top_n_acc` and the entry point are left out. They produce output only.
- Converting torch tensors to lists or ints (`tolist`, `item`) and the `assert(type(ID) == int)` check are left out. Identities are already ints in the model.
- Filenames.GetFilenames: the wrapping of a single string path into a list is left out. The model always takes a list of directories.
- PyStrings.ParseInt: only ASCII strings are modelled. Around an ASCII literal `int` skips exactly six whitespace characters: tab, line feed, vertical tab, form feed, carriage return and space (0x09-0x0D, 0x20). Those are the ones the model skips. For strings with non-ASCII characters, Python's `int` also accepts other Unicode digits and whitespace; the model rejects them. Underscores between digits are not modelled either. The fields that get parsed are split on '_', so they can never hold an underscore.
- Filenames.GlobAll: only one direction is stated. Every listed file comes from some directory's matches. The order of the matches is fixed by `GetFilenames` being equal to `GlobAll`.
- The rest of the repository is not part of this model. That includes the autoencoder classes, the Gram-Schmidt basis, the data loaders, `combined_loss`, and the `dimnet` training script.
