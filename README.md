# XreaL core helpers in Dafny

This project models, and proves properties of, the sequential logic at the core
of the XreaL engine (a Quake III Arena derivative) and its tools:

- **xmap brush and plane bookkeeping** (`XMap`): removing degenerate, duplicated
  and mirrored brush sides by in-place compaction; deciding a brush's contents
  from its sides' content flags; allocating planes in opposite-facing pairs and
  pushing them onto the plane hash chains; splicing an entity's brushes and
  patches into the world entity.
- **the ASE model reader** (`AseLib`): the cursor tokenizer over the file
  buffer, brace-depth block parsing, the face lists' winding reversal, the tag
  name trimming, lower-casing, bitmap path separators, the surface animation's
  frame selection and the object filter.
- **cgame view** (`CgView`): the view rectangle, the announcer-sound ring buffer
  and its rate limiter, zoom, powerup wear-off sounds, frame time and the test
  model's frame and skin clamps.
- **cgame main** (`CgMain`): the item-sound precache splitter, config string
  bounds, crosshair and attacker queries, the scoreboard feeders and team
  position selection, score selection and the spectator string.
- **UI atoms** (`UiAtoms`): argument concatenation into a bounded buffer, cvar
  clamping, the sorted command table and its binary search, message mode.
- **UI game info** (`UiGameInfo`): the `{ key value }` info parser with its
  count limit, the arena and bot loaders, the sorted map list and the bot
  lookups.
- **SDL input** (`SdlInput`): the console key table, the UTF-8 decoder of text
  input events, and joystick button, analog and digital axis edge detection.
- **screen helpers** (`ClScrn`): colour-aware string length, text width and
  height, glyph cells, the debug graph ring and the screen-update recursion
  guard.
- **protocol constants** (`QCommon`): the netchan checksum, the packet ring
  mask, the message size limit, the encode/decode offsets and the Huffman
  sentinels.

`QShared` holds what several modules share: ASCII lower-casing as strlwr does
it, the upper-case fold that the engine's case-insensitive comparison
(Q_stricmp) applies before comparing, the lexicographic order on strings, C
strings ending at the first NUL and C's truncating division. Under that fold
'_' and the other characters between 'Z' and 'a' sort after the letters.

State the C code updates in place becomes a Dafny `class` whose methods carry
`modifies` clauses; globals such as `cg`, `ase` or the plane arrays become that
class's fields. Each method is proved against a specification function over
sequences, and the properties are proved about those functions as lemmas.
Calls to `Error`, `CG_Error` and `Com_Error` are modelled as a returned failure
outcome (`Fatal`). Trap calls, cvars, file reads and sound playback become
parameters, or event lists the methods return.

## Model

| member | source | states |
|---|---|---|
| QShared.LowerChar | code/tools/common/aselib.c:139-142 | only 'A'..'Z' change, each to the letter 32 code points above; every other character is kept |
| QShared.Lower | code/tools/common/aselib.c:133-146 | lower-casing keeps the length and folds each character on its own |
| QShared.UpperChar | code/games/xreal/ui/ui_atoms.c:226-230 | Q_stricmp's fold: only 'a'..'z' change, each to the letter 32 code points below |
| QShared.Upper | code/games/xreal/ui/ui_gameinfo.c:142-148 | the upper-case fold keeps the length and folds each character on its own |
| QShared.EqualsIgnoreCaseLower | code/games/xreal/ui/ui_atoms.c:226-230 | Q_stricmp's equality (upper-case fold) holds exactly when the strlwr-folded strings are equal |
| QShared.LexLeqTotal | code/games/xreal/ui/ui_atoms.c:226-239 | any two command names are ordered one way or the other, as bsearch's comparison needs |
| QShared.LexLeqTransitive | code/games/xreal/ui/ui_atoms.c:226-239 | the order bsearch relies on is transitive |
| QShared.LexLeqAntisymmetric | code/games/xreal/ui/ui_atoms.c:226-239 | two names ordered both ways are equal, so a comparison of 0 identifies the entry |
| QShared.CString | code/engine/client/cl_scrn.c:535-553 | a C string is the longest NUL-free prefix of its buffer, and the character after it is the NUL |
| QShared.CDiv | code/games/xreal/cgame/cg_view.c:605-612 | C's integer division truncates toward zero: the quotient times the divisor lies within one divisor of the dividend, below it for a non-negative dividend and above it for a negative one |
| XMap.Flip | code/tools/xmap/map.c:1104 | planenum ^ 1 is the other plane of the same pair: it differs, has the same pair index and the opposite parity |
| XMap.FlipFlip | code/tools/xmap/map.c:1104 | flipping twice gives back the plane number |
| XMap.SubsequenceLength | code/tools/xmap/map.c:1080-1082 | compaction never makes numsides grow |
| XMap.ScanNoMatch | code/tools/xmap/map.c:1088-1110 | when the inner scan finds nothing, no earlier kept side has the same or the mirrored plane |
| XMap.ScanFound | code/tools/xmap/map.c:1088-1110 | a duplicate verdict names an earlier side with the same plane, a mirrored verdict one with the flipped plane |
| XMap.DedupKeepsPrefix | code/tools/xmap/map.c:1066-1111 | sides already kept are never moved or changed, and the survivors after them keep their relative order |
| XMap.DedupSound | code/tools/xmap/map.c:1066-1111 | on a true return the kept sides have pairwise distinct planes, no p / p^1 pair and no -1 past side 0 |
| XMap.DedupComplete | code/tools/xmap/map.c:1070-1101 | on a true return every non-degenerate side examined still has its plane among the survivors |
| XMap.DedupFalseMirror | code/tools/xmap/map.c:1104-1109 | a false return means the brush really has a mirrored pair |
| XMap.RemoveDuplicatesSound | code/tools/xmap/map.c:1063-1113 | side 0 is never removed, the result is an order-preserving subsequence no longer than the input, and on true it is clean (distinct, unmirrored, no -1 past side 0) |
| XMap.RemoveDuplicatesKeepsPlanes | code/tools/xmap/map.c:1070-1101 | on true every plane of an examined side survives: only degenerate sides and later duplicates are dropped |
| XMap.RemoveDuplicatesFalseIffMirror | code/tools/xmap/map.c:1104-1109 | the function returns false exactly when some side's plane is the mirror of an earlier surviving side's plane |
| XMap.Brush.RemoveSide | code/tools/xmap/map.c:1076-1081 | the shift-left loop removes exactly side i, keeps the others in order, drops numsides by one and leaves the array past the old end alone |
| XMap.Brush.ScanSides | code/tools/xmap/map.c:1088-1110 | the inner loop's verdict is the scan of the kept prefix for the same or mirrored plane |
| XMap.Brush.RemoveDuplicatePlanes | code/tools/xmap/map.c:1063-1113 | the in-place compaction computes the specification's verdict and its surviving sides, and touches nothing past the old numsides |
| XMap.OrContentsBits | code/tools/xmap/map.c:318-337 | a bit is in the or-ed contents exactly when side 0 or a later side with a shaderInfo has it |
| XMap.FinalContents | code/tools/xmap/map.c:344-364 | only DETAIL can change; it ends set exactly when translucent and not structural, or detail, not structural and not fulldetail |
| XMap.MapCompiler.SetBrushContents | code/tools/xmap/map.c:311-397 | contents is the adjusted or of the contributing sides; detail and opaque follow DETAIL and TRANSLUCENT; exactly one of c_detail and c_structural grows, c_areaportals grows with AREAPORTAL |
| XMap.Opposite | code/tools/xmap/map.c:140-144 | the paired plane has the same type and the negated distance |
| XMap.OppositeInvolutive | code/tools/xmap/map.c:140-144 | the opposite of the opposite is the plane itself |
| XMap.PlaneHash | code/tools/xmap/map.c:107-108 | the bucket is always in [0, PLANE_HASHES) |
| XMap.PlaneHashOpposite | code/tools/xmap/map.c:107-108 | a plane and its opposite hash to the same bucket, because the hash uses the absolute distance |
| XMap.PairedAppend | code/tools/xmap/map.c:140-146 | appending an opposite pair keeps planes 2k and 2k+1 opposite for every k |
| XMap.PushKeepsHashed | code/tools/xmap/map.c:103-112 | pushing a plane at the head of its bucket keeps every chain within its bucket and ordered toward older planes |
| XMap.AppendKeepsHashed | code/tools/xmap/map.c:119-146 | appending planes with empty chain links keeps the hash heads and chains valid |
| XMap.MapCompiler.AddPlaneToHash | code/tools/xmap/map.c:103-112 | the plane becomes its bucket's head and its chain link is the previous head; the hash stays consistent |
| XMap.MapCompiler.AppendPair | code/tools/xmap/map.c:146-163 | the two planes are appended and hashed in order: the second heads the bucket and links to the first, which links to the old head; every other bucket and every older link is unchanged |
| XMap.MapCompiler.CreateNewFloatPlane | code/tools/xmap/map.c:119-164 | a bad normal returns -1 and changes neither the planes, the links nor the hash heads; a full table is fatal and changes nothing; otherwise exactly two planes are appended, the result indexes the requested plane (numMapPlanes-1 when an axial plane is flipped, else numMapPlanes-2) and its pair holds the opposite; only the bucket of the distance gets a new head, and the only new links are the pair's |
| XMap.Reversed | code/tools/xmap/map.c:1173-1185 | reversal keeps the length |
| XMap.ReversedMultiset | code/tools/xmap/map.c:1173-1185 | reversal keeps every brush, none lost or duplicated |
| XMap.ReversedSnoc | code/tools/xmap/map.c:1173-1185 | pushing each next brush at the head of the world list reverses the entity's list |
| XMap.MoveBrushesToWorld | code/tools/xmap/map.c:1173-1185 | the entity ends with no brushes; the world list is the entity's list reversed, then the old world list; patches are untouched |
| XMap.MovePatchesToWorld | code/tools/xmap/map.c:1187-1202 | no patches: nothing changes; otherwise the entity's patches, in order, go in front of the world's and the entity ends with none |
| AseLib.SignedChar | code/tools/common/aselib.c:382-389 | a byte read through a signed char is negative exactly when its high bit is set, so such bytes count as delimiters |
| AseLib.SkipDelimiters | code/tools/common/aselib.c:405-409 | the skip loop stops at the first character above 32, or at the end, and everything skipped is a delimiter |
| AseLib.TokenEnd | code/tools/common/aselib.c:411-423 | the token runs to the first character that ends it (a delimiter in word mode, '\n' or '\r' in rest-of-line mode) or to the end |
| AseLib.NextToken | code/tools/common/aselib.c:391-428 | no token exactly when there is no buffer or the cursor is at its end; otherwise the cursor strictly advances and stays within the buffer |
| AseLib.NextTokenShape | code/tools/common/aselib.c:382-425 | the consumed text is delimiters, then the token, then at most the one character that ended it; the token holds no such character |
| AseLib.NextTokenEmpty | code/tools/common/aselib.c:403-425 | an empty token comes back exactly when only delimiters were left, so the cursor reaches the end |
| AseLib.AseReader.GetToken | code/tools/common/aselib.c:391-428 | the two cursor loops compute the specification token: with none, the cursor and the token are unchanged and 0 is returned |
| AseLib.PrependDone | code/tools/common/aselib.c:450-456 | tokens handed to the callback before a clean return are the whole token list of that return |
| AseLib.BracedBlockStep | code/tools/common/aselib.c:430-460 | one loop turn: end of input returns, '{' goes one deeper, '}' returns at depth 0, fails below it, else goes one up; any other token goes to the callback |
| AseLib.BracedBlockAfterToken | code/tools/common/aselib.c:430-460 | the same turn stated on what GetToken hands back, with the cursor strictly advancing |
| AseLib.BracedBlockInsideNeverFails | code/tools/common/aselib.c:438-448 | once a block has been opened the depth can return to 0 but never go below it, so the error needs a '}' before any '{' |
| AseLib.WordTokenUndelimited | code/tools/common/aselib.c:411-423 | a word-mode token has no delimiter inside |
| AseLib.BracedBlockTokens | code/tools/common/aselib.c:430-460 | the callback never sees a brace, every token it sees is a delimiter-free word, and the cursor ends within the buffer |
| AseLib.AseReader.ParseBracedBlock | code/tools/common/aselib.c:430-460 | the depth loop hands the callback exactly the specification's tokens, ends at its cursor, and raises "Unexpected '}'" exactly when it does |
| AseLib.EntryReads | code/tools/common/aselib.c:664-762 | a *MESH_FACE entry makes eight token reads, the last to the end of the line; a *MESH_TFACE or *MESH_CFACE entry makes four, none to the end of the line |
| AseLib.VertexReads | code/tools/common/aselib.c:664-762 | the three vertex indices come from three distinct reads, in order: after the labels for *MESH_FACE, right after the face number otherwise |
| AseLib.Reads | code/tools/common/aselib.c:391-427 | a run of ASE_GetToken calls yields one s_token per call and never moves the cursor back or past the end |
| AseLib.ReadsExhausted | code/tools/common/aselib.c:391-403 | with the buffer used up every further read leaves the cursor and s_token alone |
| AseLib.FaceListEntry | code/tools/common/aselib.c:664-762 | a token other than the list's keyword is fatal, with that list's message; otherwise the three indices are stored first, third, second, which reverses the winding |
| AseLib.AseMesh.Store | code/tools/common/aselib.c:672-698 | slot currentFace of the list receives the face, currentFace moves on, and the other lists keep their slots |
| AseLib.AseReader.ReadAll | code/tools/common/aselib.c:668-696 | the successive ASE_GetToken calls leave the cursor and tokens of the specification |
| AseLib.CurrentMesh | code/tools/common/aselib.c:361-380 | "Too many GEOMOBJECTs" exactly when the object index reaches MAX_ASE_OBJECTS, else "Too many MESHes" exactly when the frame index reaches MAX_ASE_ANIMATION_FRAMES, else that object's frame |
| AseLib.AseReader.FaceEntry | code/tools/common/aselib.c:666-762 | a wrong keyword is fatal and changes nothing; otherwise the entry's tokens are read, the face of the specification fills slot currentFace of its list and currentFace moves on |
| AseLib.AseReader.KeyFaceList | code/tools/common/aselib.c:664-762 | a failed mesh lookup is fatal with its message and changes nothing; then a wrong keyword is fatal and changes nothing; otherwise the entry's tokens are read, the face of the specification fills slot currentFace of its list and currentFace moves on |
| AseLib.CountPrefix | code/tools/common/aselib.c:982-985 | a prefix of the name never holds more underscores than the name |
| AseLib.CountZero | code/tools/common/aselib.c:986-989 | a string has no occurrences of a character exactly when the character is not in it |
| AseLib.LastIndex | code/tools/common/aselib.c:982-989 | strrchr finds an occurrence with none after it, and all the other occurrences before it |
| AseLib.UnderscoreCutKeeps | code/tools/common/aselib.c:982-985 | cutting at the last '_' while two or more remain never passes a prefix that has fewer than two |
| AseLib.SpaceCutKeeps | code/tools/common/aselib.c:986-989 | cutting at the last ' ' never passes a prefix free of spaces |
| AseLib.TrimTagName | code/tools/common/aselib.c:980-990 | a name not starting with "tag" is kept; otherwise the result is the longest prefix of the name with at most one '_' and no ' ' |
| AseLib.QuotedName | code/tools/common/aselib.c:972-978 | the name is what follows the opening quote up to the next quote or NUL, and holds neither |
| AseLib.CutAt | code/tools/common/aselib.c:976-978 | cutting at the first occurrence of a character gives a prefix without it, followed by it when shorter |
| AseLib.BitmapPath | code/tools/common/aselib.c:496-515 | the path is the quoted text with every '\\' replaced by '/' and every other character kept |
| AseLib.BitmapPathSeparators | code/tools/common/aselib.c:508-515 | no backslash is left, and every other character is unchanged |
| AseLib.Strlwr | code/tools/common/aselib.c:133-146 | up to the first NUL every character is lower-cased and nothing past it changes |
| AseLib.LowerAppend | code/tools/common/aselib.c:137-143 | lower-casing one more character extends the lower-cased prefix by that character folded |
| AseLib.LowerIdempotent | code/tools/common/aselib.c:133-146 | lower-casing twice is lower-casing once, and only 'A'..'Z' change |
| AseLib.KeptFrames | code/tools/common/aselib.c:265-318 | the copy loop keeps at most the frames it examines |
| AseLib.FramesInAnimation | code/tools/common/aselib.c:241-252 | the animation length is the frame count, clamped to maxFrames only when maxFrames is not -1 and smaller |
| AseLib.GetSurfaceAnimation | code/tools/common/aselib.c:228-321 | null exactly for an object without frames; otherwise the count reduced by the skip range whenever skipFrameEnd != -1, and the frames outside the range, in order |
| AseLib.SkippedBelow | code/tools/common/aselib.c:272-278 | no more frames are skipped than examined |
| AseLib.KeptFramesLength | code/tools/common/aselib.c:265-318 | exactly the frames outside the skip range are copied |
| AseLib.KeptFramesAt | code/tools/common/aselib.c:265-318 | a frame outside the skip range is copied after exactly the kept frames before it, so kept frames keep their order |
| AseLib.ReportedCountMismatch | code/tools/common/aselib.c:254-278 | with skipFrameStart == -1 and skipFrameEnd == 1, four frames are copied while the count says one |
| AseLib.KeptCountExact | code/tools/common/aselib.c:254-278 | the kept-frame count sizes the copy exactly, and equals the count as written for any skip range inside the animation |
| AseLib.SkippedBelowRange | code/tools/common/aselib.c:272-278 | with a skip range given, the number skipped below n is the overlap of [0, n) with the range |
| AseLib.GetSurfaceAnimationCorrected | code/tools/common/aselib.c:228-321 | the corrected count always equals the number of frames copied |
| AseLib.KeptObjects | code/tools/common/aselib.c:1120-1146 | every kept object comes from the file and contains neither "Bip" nor "ignore_", and with grabAnims starts with h_, l_, u_ or tag |
| AseLib.KeptObjectsStep | code/tools/common/aselib.c:1120-1146 | each *GEOMOBJECT is appended unless it is discarded |
| AseLib.KeptObjectsPrefix | code/tools/common/aselib.c:1141-1144 | the count of kept objects only grows as the file is read, so hitting the limit early means the whole file exceeds it |
| AseLib.Process | code/tools/common/aselib.c:1106-1163 | the kept objects when there are between 1 and 127; "Too many GEOMOBJECTs" exactly when 128 or more are kept; "No animation data!" exactly when none is |
| CgView.ViewSize | code/games/xreal/cgame/cg_view.c:582-603 | 100 at intermission; otherwise cg_viewsize held to [30, 100], with the cvar rewritten to "30" or "100" exactly when it was out of range |
| CgView.ClearLowBit | code/games/xreal/cgame/cg_view.c:606-610 | x & ~1 is the even number at or just below x |
| CgView.VrectFits | code/games/xreal/cgame/cg_view.c:605-612 | for a real screen each side is vid*size/100 made even, never larger than the screen, and the offset centres it so 0 <= x and x + width <= vid |
| CgView.ViewState.CalcVrect | code/games/xreal/cgame/cg_view.c:577-613 | the size, the cvar write, the even extents and the centring offsets are those of ViewSize and VrectFits |
| CgView.WearOffSoundAtBoundary | code/games/xreal/cgame/cg_view.c:1184-1199 | while time runs forward, the wear-off sound plays exactly when a whole blink interval boundary of the remaining time was crossed since the last frame |
| CgView.NoWearOffWithoutTime | code/games/xreal/cgame/cg_view.c:1194 | a frame in which no time passed plays no wear-off sound |
| CgView.WearingOff | code/games/xreal/cgame/cg_view.c:1184-1199 | exactly the powerups whose wear-off condition holds are listed |
| CgView.WearingOffStep | code/games/xreal/cgame/cg_view.c:1184-1199 | each powerup adds itself to the list exactly when its sound plays |
| CgView.ViewState.PowerupTimerSounds | code/games/xreal/cgame/cg_view.c:1178-1200 | the loop starts the wear-off sound for exactly the listed powerups, in index order |
| CgView.Wrap | code/games/xreal/cgame/cg_view.c:1214 | advancing a ring index modulo MAX_SOUNDBUFFER stays a slot of the ring |
| CgView.Span | code/games/xreal/cgame/cg_view.c:1230 | the number waiting is below MAX_SOUNDBUFFER and leads from Out around to In |
| CgView.Ring | code/games/xreal/cgame/cg_view.c:1207-1238 | the waiting sounds are the slots from Out onward around the ring, oldest first |
| CgView.RingPushRoom | code/games/xreal/cgame/cg_view.c:1213-1214 | with room, writing at In and advancing In appends the sound to the queue |
| CgView.RingPushFull | code/games/xreal/cgame/cg_view.c:1213-1218 | with 19 waiting, In runs into Out; advancing Out drops the oldest sound and the new one is appended |
| CgView.RingPush | code/games/xreal/cgame/cg_view.c:1213-1218 | the queue grows by the sound, or drops its oldest when full, and stays free of null handles |
| CgView.RingPop | code/games/xreal/cgame/cg_view.c:1232-1234 | clearing the slot at Out and advancing Out takes exactly the oldest sound off the queue |
| CgView.ViewState.AddBufferedSound | code/games/xreal/cgame/cg_view.c:1207-1219 | sfx 0 is ignored; otherwise the slot at In is written and In wraps, Out advancing (wrapped) when In catches it, so the queue gains the sound and drops the oldest only when 19 were waiting |
| CgView.ViewState.AddBufferedSoundAsWritten | code/games/xreal/cgame/cg_view.c:1207-1219 | the same steps with Out incremented without the modulo, so Out can reach MAX_SOUNDBUFFER |
| CgView.OutIndexOverrun | code/games/xreal/cgame/cg_view.c:1215-1218 | 39 sounds buffered from empty, none played, leave the as-written Out at MAX_SOUNDBUFFER, one past the last slot |
| CgView.ViewState.PlayBufferedSounds | code/games/xreal/cgame/cg_view.c:1226-1238 | a sound is played exactly when soundTime < time and one is waiting; it is the oldest, its slot is zeroed, Out advances modulo MAX_SOUNDBUFFER and soundTime becomes time + 750; otherwise nothing changes |
| CgView.ViewState.ZoomDown | code/games/xreal/cgame/cg_view.c:862-870 | zoomed afterwards; zoomTime moves to time only on an actual unzoomed-to-zoomed transition, so a repeat is a no-op |
| CgView.ViewState.ZoomUp | code/games/xreal/cgame/cg_view.c:872-880 | unzoomed afterwards; zoomTime moves only on an actual transition |
| CgView.ViewState.UpdateFrameTime | code/games/xreal/cgame/cg_view.c:1349-1358 | skipped for the right eye of a stereo pair; otherwise frametime = max(0, time - oldTime) and oldTime := time |
| CgView.ViewState.TestModelPrevFrame | code/games/xreal/cgame/cg_view.c:239-245 | one frame back, never below 0 |
| CgView.ViewState.TestModelPrevSkin | code/games/xreal/cgame/cg_view.c:338-344 | one skin back, never below 0 |
| CgMain.CrosshairPlayer | code/games/xreal/cgame/cg_main.c:448-455 | -1 exactly when more than 1000 ms have passed since the crosshair left the client, else that client |
| CgMain.LastAttacker | code/games/xreal/cgame/cg_main.c:457-464 | -1 exactly when no attack was recorded, else the attacker |
| CgMain.ConfigString | code/games/xreal/cgame/cg_main.c:1223-1230 | an index outside [0, MAX_CONFIGSTRINGS) is fatal; any other gives that config string |
| CgMain.SpaceAt | code/games/xreal/cgame/cg_main.c:570-573 | the inner scan stops at the first ' ' or at the end, having passed no space |
| CgMain.PiecesNoSpace | code/games/xreal/cgame/cg_main.c:567-586 | no token the splitter reads holds a space |
| CgMain.PiecesJoin | code/games/xreal/cgame/cg_main.c:567-586 | joining the tokens with single spaces gives back the precache string, less one trailing space: splitting loses nothing |
| CgMain.PiecesUnfold | code/games/xreal/cgame/cg_main.c:569-586 | the first token is the text before the first space, and the rest are the tokens of the text after it |
| CgMain.JoinRest | code/games/xreal/cgame/cg_main.c:583-586 | one space skipped after a token is put back by the join |
| CgMain.PrecacheSpec | code/games/xreal/cgame/cg_main.c:575-591 | processing fails exactly when some token has a length outside [5, MAX_QPATH); every registered sound is a well-sized token ending in "wav" taken from the string |
| CgMain.EmptyTokenFails | code/games/xreal/cgame/cg_main.c:575-580 | a leading space, or two spaces in a row, make a zero-length token and so the error |
| CgMain.EmptyPiece | code/games/xreal/cgame/cg_main.c:569-586 | a leading or doubled space makes the splitter read an empty token |
| CgMain.PiecesFrom | code/games/xreal/cgame/cg_main.c:569-586 | from a token start, the splitter reads the text up to the next space and continues past that one separator |
| CgMain.ProgressStep | code/games/xreal/cgame/cg_main.c:569-591 | a token of good length is registered when it ends in "wav" and the scan moves past it and its separator |
| CgMain.ProgressFail | code/games/xreal/cgame/cg_main.c:575-580 | a token of bad length stops the processing with the error, after exactly the earlier registrations |
| CgMain.NextSpace | code/games/xreal/cgame/cg_main.c:570-573 | the scan stops at the next ' ' or the end, passing no space |
| CgMain.RegisterItemSounds | code/games/xreal/cgame/cg_main.c:546-593 | the pickup sound, then exactly the "wav" tokens of the specification's split, in order; the error flag exactly when a token of bad length is met; nothing for an empty string |
| CgMain.CountTeam | code/games/xreal/cgame/cg_main.c:1647-1666 | the team count of the first n scores is at most n |
| CgMain.TeamCountsDisjoint | code/games/xreal/cgame/cg_main.c:1647-1666 | the red and blue counts add up to at most the number of scores |
| CgMain.CountTeamMonotone | code/games/xreal/cgame/cg_main.c:1647-1666 | counting more scores never finds fewer |
| CgMain.ClientGame.FeederCount | code/games/xreal/cgame/cg_main.c:1643-1673 | red and blue lists count the scores of that team, the scoreboard gives numScores and any other feeder 0 |
| CgMain.NthOfTeam | code/games/xreal/cgame/cg_main.c:1727-1740 | a found index holds a score of the team with exactly position team scores before it |
| CgMain.NthOfTeamExists | code/games/xreal/cgame/cg_main.c:1727-1740 | a list position names a score exactly when it is below the team's count |
| CgMain.NthOfTeamStable | code/games/xreal/cgame/cg_main.c:1727-1740 | once found, the position-th player of a team stays the same as more scores are scanned |
| CgMain.ClientGame.InfoFromScoreIndex | code/games/xreal/cgame/cg_main.c:1723-1745 | in team games the index of the index-th player of the team, else, or when there is none, the raw index; the client is that score's |
| CgMain.ClientGame.FeederSelection | code/games/xreal/cgame/cg_main.c:1866-1890 | in team games the selection becomes the index-th player of the feeder's team and stays unchanged when there is none; otherwise it becomes the index |
| CgMain.LastOfClient | code/games/xreal/cgame/cg_main.c:1681-1696 | the last score of the client, with none after it, or none at all |
| CgMain.ClientGame.SetScoreSelection | code/games/xreal/cgame/cg_main.c:1675-1721 | the selection becomes the last score of the local client or stays; with a menu the scoreboard row, or in team games the blue or red list at that team's count |
| CgMain.Take | code/games/xreal/cgame/cg_main.c:1171-1172 | Q_strcat keeps at most size - 1 characters, a prefix of the text |
| CgMain.TakeAppend | code/games/xreal/cgame/cg_main.c:1167-1174 | truncating after every append is truncating once at the end |
| CgMain.SpectatorStep | code/games/xreal/cgame/cg_main.c:1169-1173 | each valid spectator appends its name and five spaces, other clients change nothing |
| CgMain.CollectSpectators | code/games/xreal/cgame/cg_main.c:1167-1174 | the loop builds exactly the truncated list of all spectator entries |
| CgMain.SpectatorList | code/games/xreal/cgame/cg_main.c:1164-1181 | the list is a prefix of all spectator entries, shorter than MAX_STRING_CHARS |
| CgMain.ClientGame.BuildSpectatorString | code/games/xreal/cgame/cg_main.c:1164-1181 | the list is rebuilt, its length recorded, and the width reset to -1 only when the length changed |
| UiAtoms.ClampCvar | code/games/xreal/ui/ui_atoms.c:67-78 | below min gives min, above max gives max, otherwise the value; for min <= max the result lies in [min, max] |
| UiAtoms.ClampIdempotent | code/games/xreal/ui/ui_atoms.c:67-78 | clamping twice is clamping once |
| UiAtoms.Take | code/games/xreal/ui/ui_atoms.c:116-119 | the copy loop keeps a prefix of the argument of the room left, or all of it |
| UiAtoms.ConcatFromBound | code/games/xreal/ui/ui_atoms.c:116-129 | what is written never needs more than len - 1 characters, so the NUL at p fits in buf[len-1] at the latest |
| UiAtoms.ConcatFromPrefix | code/games/xreal/ui/ui_atoms.c:112-129 | the output is always a prefix of the arguments each followed by one space |
| UiAtoms.PrefixContinue | code/games/xreal/ui/ui_atoms.c:116-124 | an argument copied whole with its space continues the joined text exactly |
| UiAtoms.PrefixStop | code/games/xreal/ui/ui_atoms.c:116-127 | where the copying stops, what was written is still a prefix of the joined text |
| UiAtoms.ConcatStep | code/games/xreal/ui/ui_atoms.c:116-128 | after an argument, a space is added and copying goes on exactly while fewer than len - 2 characters are written; otherwise it stops |
| UiAtoms.ConcatFromFits | code/games/xreal/ui/ui_atoms.c:112-129 | when everything fits with room to spare the output is all of it, including the space after the last argument |
| UiAtoms.CopyWhileRoom | code/games/xreal/ui/ui_atoms.c:116-119 | the inner loop copies the argument until it ends or p reaches buf[len-1], and writes nothing from len on |
| UiAtoms.PutChar | code/games/xreal/ui/ui_atoms.c:123 | writing the separator extends the text by it and leaves the rest of the buffer alone |
| UiAtoms.ConcatArgs | code/games/xreal/ui/ui_atoms.c:99-134 | len <= 0 leaves buf untouched; otherwise the text written is the specification's, shorter than len, NUL-terminated, with nothing written from buf[len] on |
| UiAtoms.LessTransitive | code/games/xreal/ui/ui_atoms.c:226-230 | Q_stricmp's strict order is transitive |
| UiAtoms.LessTotal | code/games/xreal/ui/ui_atoms.c:226-230 | any two names are equal ignoring case or ordered one way |
| UiAtoms.AdjacentSortedIsSorted | code/games/xreal/ui/ui_atoms.c:217-224 | a table whose each entry is below the next is sorted throughout |
| UiAtoms.LexLeqAt | code/games/xreal/ui/ui_atoms.c:226-230 | two names are ordered by the first character where they differ |
| UiAtoms.LexLeqPrefix | code/games/xreal/ui/ui_atoms.c:226-230 | a proper prefix comes first |
| UiAtoms.LessAt | code/games/xreal/ui/ui_atoms.c:226-230 | two names are ordered under Q_stricmp by their upper-cased characters at the first difference, or as a proper prefix |
| UiAtoms.CommandsAdjacent | code/games/xreal/ui/ui_atoms.c:217-224 | each command of the table is below the next under Q_stricmp |
| UiAtoms.CommandsSorted | code/games/xreal/ui/ui_atoms.c:217-239 | the table is strictly ascending under Q_stricmp, as bsearch requires |
| UiAtoms.BinarySearch | code/games/xreal/ui/ui_atoms.c:239 | over a sorted table, an index whose entry equals the key ignoring case, and none exactly when no entry does |
| UiAtoms.DisplayContext.ConsoleCommand | code/games/xreal/ui/ui_atoms.c:237-251 | frameTime becomes the time since the previous call and realTime the new time, always; a command is found exactly when argv0 names one of the table |
| UiAtoms.DisplayContext.MessageMode | code/games/xreal/ui/ui_atoms.c:170-202 | team chat exactly when argv0[11] is '2'; the say_team menu then, else the say menu |
| UiAtoms.MessageModeCommands | code/games/xreal/ui/ui_atoms.c:176-188 | of the two table commands that reach it, messagemode2 selects team chat and messagemode global chat, in any case |
| UiGameInfo.ValueAt | code/games/xreal/ui/ui_gameinfo.c:88-92 | the value is read from the same line only; a missing or empty one becomes "<NULL>", so a stored value is never empty |
| UiGameInfo.BlockRoundTrip | code/games/xreal/ui/ui_gameinfo.c:74-94 | a well-formed block written out as key/value lines and "}" reads back as the same pairs, ending just past the "}" |
| UiGameInfo.BlockShift | code/games/xreal/ui/ui_gameinfo.c:74-94 | reading a block depends only on the tokens from its position on |
| UiGameInfo.ReadBlock | code/games/xreal/ui/ui_gameinfo.c:73-94 | the loop reads the pairs of one block up to its "}", an empty token or the end of input, as the block specification says |
| UiGameInfo.InfosBound | code/games/xreal/ui/ui_gameinfo.c:67-71 | the parser never stores more infos than the room it was given |
| UiGameInfo.ParseRoundTrip | code/games/xreal/ui/ui_gameinfo.c:45-104 | well-formed blocks written out and parsed back, with room and memory for all, give the same blocks in order |
| UiGameInfo.InfosShift | code/games/xreal/ui/ui_gameinfo.c:54-102 | parsing depends only on the tokens from the current position on |
| UiGameInfo.MissingBraceStops | code/games/xreal/ui/ui_gameinfo.c:61-65 | input that does not start with "{" yields no infos |
| UiGameInfo.ParseInfos | code/games/xreal/ui/ui_gameinfo.c:45-104 | the loop returns the infos of the parse specification (stopping at end of input, a missing "{" or max; skipping blocks whose allocation fails), never more than max |
| UiGameInfo.ValueForKey | code/games/xreal/ui/ui_gameinfo.c:189-190 | "" when no key equals the asked key ignoring case; otherwise the value of the last pair whose key does |
| UiGameInfo.Insert | code/games/xreal/ui/ui_gameinfo.c:202 | inserting a map adds exactly that map to the list |
| UiGameInfo.InsertSorted | code/games/xreal/ui/ui_gameinfo.c:142-148 | inserting into a list sorted by map name, ignoring case, keeps it sorted |
| UiGameInfo.TailSorted | code/games/xreal/ui/ui_gameinfo.c:142-148 | a sorted map list stays sorted without its head |
| UiGameInfo.ConsSorted | code/games/xreal/ui/ui_gameinfo.c:142-148 | a map no later than every map of a sorted list can go in front of it |
| UiGameInfo.SortByName | code/games/xreal/ui/ui_gameinfo.c:202 | the sorted map list is a permutation of the maps |
| UiGameInfo.SortByNameSorted | code/games/xreal/ui/ui_gameinfo.c:142-148 | the sorted map list is ascending by name under Q_stricmp |
| UiGameInfo.MapsFromArenas | code/games/xreal/ui/ui_gameinfo.c:186-200 | one map entry per arena, for the first n arenas |
| UiGameInfo.BuildMaps | code/games/xreal/ui/ui_gameinfo.c:186-200 | the map list holds one entry per arena, in order, and stops at MAX_MAPS |
| UiGameInfo.LoadedFromBound | code/games/xreal/ui/ui_gameinfo.c:134 | loading files one after another keeps earlier infos and never passes the array size |
| UiGameInfo.GameInfo.LoadArenasFromFile | code/games/xreal/ui/ui_gameinfo.c:111-135 | a missing file or one of MAX_ARENAS_TEXT bytes or more adds nothing; otherwise the parsed infos are appended within the room MAX_ARENAS leaves |
| UiGameInfo.GameInfo.LoadBotsFromFile | code/games/xreal/ui/ui_gameinfo.c:210-238 | the same for bots, with MAX_BOTS_TEXT and MAX_BOTS |
| UiGameInfo.GameInfo.LoadArenas | code/games/xreal/ui/ui_gameinfo.c:155-203 | the arena list is rebuilt from every file in order; the map list holds the first MAX_MAPS arenas' maps, each as often as there, in ascending order by name under Q_stricmp |
| UiGameInfo.GameInfo.LoadBots | code/games/xreal/ui/ui_gameinfo.c:245-278 | the bot list is rebuilt from the configured file and then every .bot file, in order |
| UiGameInfo.GameInfo.GetNumBots | code/games/xreal/ui/ui_gameinfo.c:321-324 | the number of bots, at most MAX_BOTS |
| UiGameInfo.GameInfo.GetBotInfoByNumber | code/games/xreal/ui/ui_gameinfo.c:287-296 | nothing exactly when the number is out of range; otherwise that bot's info |
| UiGameInfo.GameInfo.GetBotNameByNumber | code/games/xreal/ui/ui_gameinfo.c:326-335 | the bot's "name" value, or "Visor" for a bad number |
| UiGameInfo.GameInfo.GetBotInfoByName | code/games/xreal/ui/ui_gameinfo.c:303-319 | the first bot whose name equals the given one ignoring case, or none when no bot's does |
| SdlInput.ParseKeysTable | code/engine/sys/sdl_input.c:160-201 | the parsed console-key table never holds more than MAX_CONSOLE_KEYS entries, and each character entry is the positive value of some four-character token |
| SdlInput.KeyAloneNeverConsole | code/engine/sys/sdl_input.c:203-233 | with the QUAKE_KEY case compiled out, a key with no character is never a console key, whatever the table |
| SdlInput.ConsoleKeyTable.IsConsole | code/engine/sys/sdl_input.c:138-235 | the table is re-parsed exactly when the cvar was modified, and the answer is true exactly when the table holds the character |
| SdlInput.Combine | code/engine/sys/sdl_input.c:956-982 | every step as written consumes one to four bytes |
| SdlInput.CombineRfc | code/engine/sys/sdl_input.c:956-982 | every corrected step consumes one to four bytes |
| SdlInput.DecodeAt | code/engine/sys/sdl_input.c:956-982 | a step as written advances by one to four bytes |
| SdlInput.DecodeRfcAt | code/engine/sys/sdl_input.c:956-982 | a corrected step advances by one to four bytes and yields no negative value |
| SdlInput.Encode | code/engine/sys/sdl_input.c:956-977 | the RFC 3629 encoding the decoder reads takes one, two, three or four bytes by the value's range |
| SdlInput.TwoBytes | code/engine/sys/sdl_input.c:960-964 | a two-byte sequence reads back its value, as written and corrected |
| SdlInput.ThreeBytes | code/engine/sys/sdl_input.c:965-970 | a three-byte sequence reads back its value, as written and corrected |
| SdlInput.FourBytes | code/engine/sys/sdl_input.c:971-977 | a four-byte sequence reads back when corrected; as written it takes four bytes and reads back exactly when bits 12 to 17 are zero |
| SdlInput.AsciiByte | code/engine/sys/sdl_input.c:956-959 | a byte below 0x80 is its own value and takes one byte |
| SdlInput.InvalidLeadSkipped | code/engine/sys/sdl_input.c:978-982 | a continuation byte or a byte from 0xF8 up as lead is skipped and yields nothing |
| SdlInput.DecodeEncodeShort | code/engine/sys/sdl_input.c:956-970 | as written, every value below U+10000 reads back from its encoding |
| SdlInput.DecodeEncodeRfc | code/engine/sys/sdl_input.c:956-982 | corrected, every scalar value reads back from its encoding |
| SdlInput.DecodeEncodeFourByte | code/engine/sys/sdl_input.c:971-977 | as written, a value from U+10000 on reads back exactly when bits 12 to 17 are zero |
| SdlInput.FourByteMisdecoded | code/engine/sys/sdl_input.c:971-977 | U+1F600, encoded F0 9F 98 80, comes out as U+07C0 as written and as U+1F600 corrected |
| SdlInput.Utf32s | code/engine/sys/sdl_input.c:952-984 | only non-zero values are queued |
| SdlInput.Utf32sRoundTrip | code/engine/sys/sdl_input.c:952-995 | text made of encoded non-zero scalar values converts back to exactly those values |
| SdlInput.TextInput | code/engine/sys/sdl_input.c:946-997 | with the four-byte step corrected per RFC 3629: nothing while the console key is held; otherwise, per decoded value in order, K_CONSOLE down and up for a console character and SE_CHAR for any other |
| SdlInput.Utf32sAsWritten | code/engine/sys/sdl_input.c:952-984 | as written, only non-zero values are queued |
| SdlInput.AsWrittenAgrees | code/engine/sys/sdl_input.c:952-984 | a text without four-byte leads gives the same values as written and corrected |
| SdlInput.OneValueText | code/engine/sys/sdl_input.c:952-984 | a four-byte text whose first step takes all four bytes queues that step's non-zero value alone |
| SdlInput.EmojiTextMisread | code/engine/sys/sdl_input.c:971-984 | a text holding U+1F600 queues U+07C0 as written and U+1F600 corrected |
| SdlInput.TextInputAsWritten | code/engine/sys/sdl_input.c:946-997 | as written: nothing while the console key is held; otherwise the events of each non-zero value of the as-written steps, in order |
| SdlInput.DecodeStepAsWritten | code/engine/sys/sdl_input.c:954-982 | the byte-by-byte loop body as written computes the as-written step |
| SdlInput.DecodeStep | code/engine/sys/sdl_input.c:954-982 | the byte-by-byte loop body computes the corrected step |
| SdlInput.ButtonsAfter | code/engine/sys/sdl_input.c:730-739 | the remembered button states keep their number |
| SdlInput.ButtonEventsIff | code/engine/sys/sdl_input.c:730-739 | a button event is queued exactly for a polled button whose state changed, carrying the new state |
| SdlInput.ButtonEventsBound | code/engine/sys/sdl_input.c:722-740 | only button events are queued, at most one per polled button |
| SdlInput.ButtonsSettle | code/engine/sys/sdl_input.c:730-739 | polling the same buttons again queues nothing |
| SdlInput.ButtonEventsAgree | code/engine/sys/sdl_input.c:730-739 | the events depend only on the remembered states of the polled buttons |
| SdlInput.LevelsAfter | code/engine/sys/sdl_input.c:846-863 | the remembered analog values keep their number |
| SdlInput.AnalogEventsIff | code/engine/sys/sdl_input.c:846-863 | an axis event is queued exactly for an axis whose value changed, carrying the new value (0 in the dead zone) |
| SdlInput.AnalogEventsAgree | code/engine/sys/sdl_input.c:846-863 | the events depend only on the remembered values of the read axes |
| SdlInput.LevelsSettle | code/engine/sys/sdl_input.c:846-863 | reading the same axes again queues nothing |
| SdlInput.AxisWord | code/engine/sys/sdl_input.c:867-884 | bit 2i is set exactly when axis i is past the threshold negatively, bit 2i+1 exactly when positively |
| SdlInput.AxisBitsExclusive | code/engine/sys/sdl_input.c:875-882 | an axis never sets both of its bits |
| SdlInput.EdgeEventsIff | code/engine/sys/sdl_input.c:888-903 | a press is queued exactly for a bit that came on, a release exactly for one that went off |
| SdlInput.EdgeEventsLow | code/engine/sys/sdl_input.c:890-903 | only bits 0 to 15 are looked at |
| SdlInput.EdgeEventsSame | code/engine/sys/sdl_input.c:888 | an unchanged word queues nothing |
| SdlInput.HighAxesSilent | code/engine/sys/sdl_input.c:867-903 | axes 8 to 15 never produce key events: only their bits above 15 change |
| SdlInput.JoySettles | code/engine/sys/sdl_input.c:674-906 | a second poll with the same readings, from the state the first left, queues no event |
| SdlInput.StickState.PollButtons | code/engine/sys/sdl_input.c:722-740 | the loop queues the button events of the specification and leaves the new states remembered |
| SdlInput.StickState.PollAnalog | code/engine/sys/sdl_input.c:846-863 | the loop queues the analog events of the specification and leaves the new values remembered |
| SdlInput.StickState.DigitalWord | code/engine/sys/sdl_input.c:867-884 | the loop builds the axes word of the specification |
| SdlInput.StickState.Edges | code/engine/sys/sdl_input.c:888-903 | the loop queues the edge events of the specification |
| SdlInput.StickState.JoyMove | code/engine/sys/sdl_input.c:674-906 | the events are the buttons', then the axes', then the edges'; the new states and word are remembered |
| ClScrn.VisibleFromBound | code/engine/client/cl_scrn.c:535-554 | the drawn characters are never more than the C string's characters and never include its NUL |
| ClScrn.VisiblePlain | code/engine/client/cl_scrn.c:535-554 | a string without colour escapes is drawn in full, up to its NUL |
| ClScrn.ColorPrefixInvisible | code/engine/client/cl_scrn.c:542-546 | a colour code in front of a string adds no drawn character |
| ClScrn.VisibleFromShift | code/engine/client/cl_scrn.c:535-554 | the walk from a position depends only on the characters from there on |
| ClScrn.Strlen | code/engine/client/cl_scrn.c:535-554 | the loop counts exactly the drawn characters |
| ClScrn.BigStringWidth | code/engine/client/cl_scrn.c:559-562 | 16 pixels per drawn character, never more than 16 per character of the C string |
| ClScrn.Measured | code/engine/client/cl_scrn.c:220-242 | the measured characters are the first drawn characters |
| ClScrn.MeasuredCount | code/engine/client/cl_scrn.c:220-228 | a positive limit measures min(drawn characters, limit) of them; otherwise all are measured |
| ClScrn.AdvanceUniform | code/engine/client/cl_scrn.c:236-240 | glyphs of equal advance give a width proportional to the count |
| ClScrn.TallestIsMax | code/engine/client/cl_scrn.c:277-284 | the height is the greatest measured glyph height, or 0 when nothing is measured |
| ClScrn.MeasureStep | code/engine/client/cl_scrn.c:236-240 | one more character adds its advance and raises the height to its own when taller |
| ClScrn.MeasureLoop | code/engine/client/cl_scrn.c:226-242 | the loop sums the advances and takes the tallest height of the first len drawn characters |
| ClScrn.TextWidth | code/engine/client/cl_scrn.c:208-247 | 0 for no text; otherwise the summed advances of the measured characters |
| ClScrn.TextHeight | code/engine/client/cl_scrn.c:249-291 | 0 for no text; otherwise the tallest measured glyph |
| ClScrn.CharCell | code/engine/client/cl_scrn.c:146-167 | a space has no cell; any other character's low byte is row * 16 + column, both below 16 |
| ClScrn.CellsDistinct | code/engine/client/cl_scrn.c:164-165 | two characters share a cell only if their low bytes agree |
| ClScrn.CellRect | code/engine/client/cl_scrn.c:167-171 | a cell's rectangle is a sixteenth of the sheet each way, inside the sheet |
| ClScrn.CellRectsDisjoint | code/engine/client/cl_scrn.c:164-171 | distinct cells have non-overlapping rectangles |
| ClScrn.SmallChar | code/engine/client/cl_scrn.c:178-197 | something is drawn exactly when the character is not a space and y is not above -SMALLCHAR_HEIGHT |
| ClScrn.BigChar | code/engine/client/cl_scrn.c:140-172 | something is drawn exactly when the character is not a space and y is not above -size |
| ClScrn.Slot | code/engine/client/cl_scrn.c:701 | the slot read is always inside the ring |
| ClScrn.SlotRepeats | code/engine/client/cl_scrn.c:699-701 | columns 1024 apart read the same slot |
| ClScrn.SlotOfRecent | code/engine/client/cl_scrn.c:673-701 | column a reads where the sample a places back from the newest was stored |
| ClScrn.SlotsApart | code/engine/client/cl_scrn.c:673-675 | samples fewer than 1024 apart are stored in distinct slots |
| ClScrn.DebugGraph.Add | code/engine/client/cl_scrn.c:671-676 | the sample is recorded, and the ring keeps holding the latest 1024 samples at counter & 1023 |
| ClScrn.DebugGraph.Columns | code/engine/client/cl_scrn.c:699-712 | column a shows the sample a places back from the newest, a column no sample has reached yet shows the zero sample the static array starts with, and the picture repeats every 1024 columns |
| ClScrn.SlotOfUnreached | code/engine/client/cl_scrn.c:699-701 | a column past the samples recorded so far reads a slot no sample has reached |
| ClScrn.GuardNeverFires | code/engine/client/cl_scrn.c:846-851 | as written, from a counter of at most 1, the guard never raises its error however deep the re-entry |
| ClScrn.ThreeDeepPasses | code/engine/client/cl_scrn.c:846-851 | three nested updates pass the guard as written |
| ClScrn.GuardCountedFires | code/engine/client/cl_scrn.c:846-851 | with a depth counter the error is raised exactly when more than two calls are nested, and the counter is restored otherwise |
| ClScrn.Screen.UpdateScreen | code/engine/client/cl_scrn.c:837-877 | nothing before initialisation; otherwise the fatal error and the counter are as the as-written guard says |
| ClScrn.Screen.UpdateScreenCounted | code/engine/client/cl_scrn.c:837-877 | the same with the counted guard |
| ClScrn.WideIsAspect | code/engine/client/cl_scrn.c:755 | the integer test vidWidth * 480 > vidHeight * 640 is the aspect ratio being wider than 4:3, and equality is exactly 4:3 |
| QCommon.ChecksumUndo | code/engine/qcommon/qcommon.h:201 | the receiver recovers the challenge by XORing the wrapped product back out |
| QCommon.ChecksumSequenceZero | code/engine/qcommon/qcommon.h:201 | sequence 0 leaves the challenge unchanged |
| QCommon.ChecksumVanishes | code/engine/qcommon/qcommon.h:201 | a zero challenge, or sequence 1, makes the checksum 0 |
| QCommon.PacketSlotInRing | code/engine/qcommon/qcommon.h:131-133 | sequence & PACKET_MASK is inside the ring and is the sequence modulo 32 |
| QCommon.PacketSlotsDistinct | code/engine/qcommon/qcommon.h:131-133 | sequences fewer than PACKET_BACKUP apart, even across the 32-bit wrap, use distinct slots |
| QCommon.OffsetsMirror | code/engine/qcommon/qcommon.h:1266-1269 | each side decodes from the offset the other encodes from |
| QCommon.Classify | code/engine/qcommon/qcommon.h:1206-1218 | bytes, NYT (= HMAX) and INTERNAL_NODE (= HMAX + 1) are told apart exactly |
| QCommon.LocSlots | code/engine/qcommon/qcommon.h:1228 | huff_t.loc has a slot exactly for every byte and NYT, and none for INTERNAL_NODE |
| QCommon.FitsIffMaxMsgLen | code/engine/qcommon/qcommon.h:194-230 | a message fits both fragment buffers exactly when it is within MAX_MSGLEN, which is 32768 |

## Left out

- The network transport (the bit-packed message buffer, netchan fragmentation and sequencing, the adaptive Huffman coder, the delta codecs): qcommon.h only declares it, so only its constants and the checksum macro are modelled.
- Constants from headers that are not part of this model (MAX_SOUNDBUFFER, POWERUP_BLINKS, POWERUP_BLINK_TIME, MAX_QPATH, MAX_CONFIGSTRINGS, MAX_ARENAS, MAX_BOTS, MAX_MAPS, the CONTENTS_ bits, MAX_MAP_PLANES, Q_COLOR_ESCAPE, SMALLCHAR_WIDTH, SMALLCHAR_HEIGHT, BIGCHAR_WIDTH): they take their Quake III values.
- Helpers whose bodies are not part of this model: Com_Parse and Com_ParseExt are replaced by token sequences; Com_HexStrToInt and Key_StringToKeynum are function parameters; Q_stricmp folds 'a'..'z' to upper case and compares code points; Q_IsColorString is '^' followed by a character other than '^' and NUL, as in ioquake3; Info_ValueForKey returns the value last set for a key.
- Info_SetValueForKey's checks (keys or values containing '\\', ';' or '"', and the MAX_INFO_STRING limit) are not modelled: an info is the list of pairs handed to it, in order.
- Trap, renderer, sound, cvar and SDL calls are parameters or outcomes: UI_Alloc's successes, the file found/length pairs and the directory listings, the SDL button and axis readings, sounds started (returned as lists), menus opened (returned as names), cvar writes (returned as values).
- Floating point: plane normals and distances are exact reals; the joystick threshold test is given as each axis's tilt and dead-zone flag; SCR_AdjustFrom640, the text scale and the glyph scale are left out (widths are unscaled sums of integer advances); the debug graph's height arithmetic in SCR_DrawDebugGraph is left out (only which sample each column shows is modelled).
- UiAtoms.ClampCvar: works on reals, so the float NaN behaviour is not modelled.
- The joystick's hats and trackballs, and the joystick's open and close paths, are left out: IN_JoyMove is modelled for an open stick, through buttons, analog axes and digital axis edges.
- 32-bit overflow of SCR_DebugGraph's current and of vidWidth * 480 is not modelled: those integers are unbounded.
- SdlInput.At: the event text is read up to its first NUL; the as-written loop can step past a NUL that ends a truncated multi-byte sequence and read beyond it, which the model does not follow.
- SdlInput.Combine: the masks on a possibly signed char are modelled as arithmetic on the byte value; they give the same bits either way.
- ClScrn.MeasureLoop: glyphs are looked up through a font function of the character; the source's (int)*s index, negative for bytes from 0x80 on where char is signed, is not reproduced.
- UiAtoms.DisplayContext.MessageMode: requires an argv0 of at least 11 characters, since only "messagemode" and "messagemode2" from the command table reach it and index 11 is then within the string or its terminator.
- CgMain.RegisterItemSounds: a null pickup_sound is modelled as an empty string.
- Com_Compress, applied to bot files before parsing, is left out: the bot tokens are given already.
- AseLib.AseReader.ParseBracedBlock: the callback only receives the tokens; callbacks that read tokens themselves (the face-list and vertex-list entries) or open nested blocks (the material list) are not composed with the loop, so the model follows exactly the calls that pass no callback.
- AseLib.AseMesh: the face arrays allocated with MESH_NUMFACES slots are maps, since no entry compares currentFace with that count; a write past the array is a slot beyond it rather than memory corruption. The reset of currentFace and the allocation when a list starts (ASE_KeyMESH) are not modelled. The mesh an entry writes is passed in as the frame ASE_GetCurrentMesh selects (its two errors are modelled by CurrentMesh); the object and frame arrays themselves are not.
- AseLib.BitmapPath: for an empty token the source copies from one past the token's NUL, which reads beyond the string; the model takes the empty path there.
- AseLib.NextToken: a NUL byte inside the buffer stays inside the token, whereas the C string functions applied to s_token stop at it, so a token holding one compares differently in C.
- XMap.MoveBrushesToWorld: requires the entity to differ from the world (entities[0]); its callers pass func_group entities only, and passing the world itself, which would empty the world's list, is not modelled.
- XMap.MovePatchesToWorld: requires the entity to differ from the world, for the same reason.
- ASE file loading (fopen, fread) and the fixed s_token buffer are left out: the buffer is a byte sequence and tokens are sequences, so overflow of s_token is not reproduced.
- Map loading and the floating-point plane helpers (PlaneEqual, SnapPlane, MapPlaneFromPoints, brush bevels, texture axes) are left out, as are the renderer-facing parts of cg_view.c (field of view, view offsets) and media registration in cg_main.c.

## Findings

| source | as written | input that shows it | evidently intended | confidence | as-written member | corrected member |
|---|---|---|---|---|---|---|
| code/tools/common/aselib.c:254-278 | the reported frame count subtracts the skip range whenever skipFrameEnd != -1, but frames are only skipped when skipFrameStart != -1 | skipFrameStart = -1, skipFrameEnd = 1, four frames: four frames are copied into a buffer sized for one, and the count says one | the count is the number of frames actually copied | high (not executed) | AseLib.ReportedCountMismatch | AseLib.GetSurfaceAnimationCorrected |
| code/games/xreal/cgame/cg_view.c:1215-1218 | when In catches Out, Out is incremented without the modulo | 39 sounds buffered from an empty queue with none played: Out reaches MAX_SOUNDBUFFER, one past the last slot, and the next play reads soundBuffer[20] | Out advances modulo MAX_SOUNDBUFFER, as In and CG_PlayBufferedSounds do | high (not executed) | CgView.OutIndexOverrun | CgView.ViewState.AddBufferedSound |
| code/engine/client/cl_scrn.c:846-851 | the counter is incremented, tested against 2, then overwritten with 1, so nested calls never see more than 2 | three nested calls of SCR_UpdateScreen from a counter of 0 pass the guard | the error fires once more than two calls are nested, counting depth | medium (not executed) | ClScrn.ThreeDeepPasses | ClScrn.Screen.UpdateScreenCounted |
| code/engine/sys/sdl_input.c:971-977 | the four-byte case shifts the first continuation byte by 6 instead of 12, ORing it into the next byte's bits | a text holding U+1F600, bytes F0 9F 98 80, queues U+07C0 | section 3 of RFC 3629: the first continuation byte supplies bits 12 to 17 | high (not executed) | SdlInput.EmojiTextMisread | SdlInput.TextInput |
