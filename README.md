# Vision Lumina player: a Dafny model of its core logic

Vision Lumina is an Electron video player. It has a renderer window (`app.js`)
and a main process (`main.js`). This project models the parts of the two that
decide things, as opposed to the parts that draw them:

- **Quality.** The quality label shown for a video of a given size (`getQualityFromResolution`).
- **Timecode.** How times are printed (`formatTime`) and read back from chapter files (`parseVttTime`).
- **Subtitles.** The SubRip to WebVTT conversion (`srtToVtt`). Each regular-expression pass is a left-to-right scanner that makes the same choices as the expression.
- **Chapters.** Chapter files (`parseVttChapters`) and the chapter named while playing (`updateCurrentChapter`).
- **Player.** The player's playlist state: `loadVideoFile`, `buildPlaylist`, `nextVideo` and `onVideoEnded`. A class `VisionLumina` holds the fields these methods update.
- **Library.** The home screen's folder list (`HomeLibrary`): adding a folder without duplicates and removing one. A class `HomeLibrary` holds the list and its stored copy.
- **Launcher.** In the main process: which paths are video files (`isVideoFile`, on Node's `path.extname` for POSIX and for Windows); which command-line argument is opened, at start-up and when a second instance starts; and the `open-file` handler. A class `MainProcess` holds the module's `videoFilePath`.
- **Text.** The JavaScript string operations the above rely on. These are `trim` with ECMAScript's white-space set, `split`, `indexOf`, `toLowerCase` (as far as it can produce ASCII), number printing and `padStart`.

Times are whole milliseconds, or `NaN`. The directory listing, the folder
dialog, file existence and `path.resolve` are parameters.

Some behaviour of the source is modelled as written, including where it
surprises:

- `srtToVtt` drops a line made only of digits when an LF follows it, including a subtitle text line such as `1984`, together with any blank lines after it (`Subtitles.CueIndexLineDropped`, `Subtitles.IndexLineWithBlankLines`). A cue ending in such a line therefore runs on into the next cue (`Subtitles.DigitTextLineMergesCues`). A digit line that ends the text has no LF after it and is kept (`Subtitles.FinalDigitLineKept`).
- `nextVideo` wraps from the last file to the first; `onVideoEnded` does not (`Player.EndedAgreesWithNext`).
- A timestamp with a single field reads as `NaN`.

## Model

| member | source | states |
|---|---|---|
| Quality.Lookup | app.js:296-307 | the label found is stored under exactly that key; when none is found, no entry has the key |
| Quality.ResolutionKeyInjective | app.js:306 | two sizes give the same `<width>x<height>` key only if they are the same size |
| Quality.TableAgreesWithLadder | app.js:296-316 | every exact-resolution entry has a height of at least 240 and carries the label the height thresholds give |
| Quality.QualityByHeight | app.js:295-317 | `QualityFromResolution` (`getQualityFromResolution`): from a height of 240 up the label is the threshold label for the height alone; below 240 it is the literal `<width>x<height>` |
| Quality.QualityIgnoresWidth | app.js:295-317 | two videos of the same height (at least 240) get the same label whatever their widths |
| Text.Trim | app.js:508 | no white space at either end of the result; a string with none there is returned unchanged |
| Text.TrimIsMiddle | app.js:508 | `trim` returns a contiguous run of the input; everything before and after that run is white space |
| Text.TrimKeepsCharacters | app.js:508 | every character of the trimmed text occurs in the input |
| Text.Split | app.js:803 | at least one piece; no piece holds the separator |
| Text.JoinOfSplit | app.js:803 | joining the pieces of a split with the separator gives back the string |
| Text.SplitOfJoin | app.js:803 | splitting pieces joined by a separator they do not hold gives back the pieces |
| Text.FindChar | app.js:803 | the first index holding the character, or none exactly when it does not occur |
| Text.BeforeFirst | app.js:789 | `split(pat)[0]` is the prefix up to the first occurrence of the pattern: no occurrence starts inside it, the pattern occurs right after it when it occurs at all, and it is the whole text when the pattern is absent |
| Text.LowerChar | main.js:65 | each ASCII capital becomes its own lower-case letter, the Kelvin sign becomes `k`, every other character is kept; an ASCII letter comes only from an ASCII letter or the Kelvin sign |
| Text.Lower | main.js:65 | same length; no ASCII capital is left; each capital becomes its lower-case letter and every other character except the Kelvin sign is kept |
| Text.LowerIdempotent | main.js:65 | lower-casing twice is lower-casing once |
| Text.NatToString | app.js:306 | a non-empty run of digits, with no leading zero except for 0, one digit exactly below 10 |
| Text.DigitsValueOfNatToString | app.js:1575-1578 | reading back a printed integer gives the integer |
| Text.NatToStringInjective | app.js:306 | distinct integers print differently |
| Text.PadStart2 | app.js:1576 | strings of two or more characters are unchanged; shorter ones are left-padded with zeros to two |
| Text.TwoDigits | app.js:1576 | `n.toString().padStart(2, '0')` for n below 100 is two digits that read as n |
| Timecode.FormatTimeJoinsFields | app.js:1575-1578 | the printed time is its fields joined by colons, and no field holds a colon |
| Timecode.ClockArithmetic | app.js:1571-1573 | minutes and seconds are below 60 and hours, minutes and seconds recombine to the whole seconds |
| Timecode.ClockFieldValues | app.js:1567-1579 | below an hour: unpadded minutes and two-digit seconds; from an hour on: unpadded non-zero hours, two-digit minutes and seconds; they add up to the whole seconds |
| Timecode.FormatTimeFields | app.js:1567-1579 | `FormatTime` (`formatTime`): the same, read off the printed text split at its colons |
| Timecode.FractionMillis | app.js:803-805 | the fraction of a seconds field adds less than a second |
| Timecode.ParseWholeNumber | app.js:803 | `ParseNumber` (`Number`) of a field of digits is that many seconds |
| Timecode.ParseDecimalNumber | app.js:803 | `Number` of `digits.digits` is the seconds plus the fraction's milliseconds |
| Timecode.ParseJoinedFields | app.js:803 | the time of colon-joined fields is the time of the fields themselves |
| Timecode.TwoFieldsTime | app.js:807 | two fields are minutes and seconds |
| Timecode.ThreeFieldsTime | app.js:804-805 | three fields are hours, minutes and seconds |
| Timecode.ParseVttTimeLong | app.js:802-808 | `ParseVttTime`, through `FieldsTime` on the colon-separated fields: `hh:mm:ss.fff` reads as the hours, minutes and seconds spelt plus the first three fraction digits |
| Timecode.ParseVttTimeShort | app.js:802-808 | `mm:ss.fff` reads as the minutes and seconds spelt plus the first three fraction digits |
| Timecode.ParseFormattedTime | app.js:802-808 | reading back what `formatTime` printed gives its whole seconds |
| Subtitles.NormalizeNewlines | app.js:510 | the result holds no CR |
| Subtitles.NormalizeWithoutCr | app.js:510 | text without CR is unchanged |
| Subtitles.NormalizeSplits | app.js:510 | normalisation distributes over a concatenation whose second part does not start with LF |
| Subtitles.NormalizeCrLf | app.js:510 | a CRLF becomes one LF, whatever surrounds it |
| Subtitles.NormalizeLoneCr | app.js:510 | a CR not followed by LF becomes one LF |
| Subtitles.IndexLineLength | app.js:512 | a match of `^\d+\s*\n` starts with a digit, ends with an LF and is at least two characters |
| Subtitles.LastNewlineInIsLast | app.js:512 | the backtracking `\s*` stops at the last LF of the white space; none found means none there |
| Subtitles.RemoveCueIndices | app.js:512 | the pass only shortens the text |
| Subtitles.RemovalKeepsCharacters | app.js:512 | every character of the result occurs in the input |
| Subtitles.CueIndexLineDropped | app.js:511-512 | a line of digits at a line start, followed by an LF and then a line that does not start with white space, goes with its LF |
| Subtitles.IndexLineWithBlankLines | app.js:512 | a line of digits at a line start goes with all the white space after it up to its last LF, so blank lines after it go too |
| Subtitles.DigitTextLineMergesCues | app.js:512 | a cue text line made of digits is removed with the blank line after it, so its cue runs on into the next |
| Subtitles.FinalDigitLineKept | app.js:512 | a line of digits that ends the text has no LF after it and is kept |
| Subtitles.CueIndexLength | app.js:512 | such a line matches exactly up to and including its LF |
| Subtitles.TextLineKept | app.js:512 | a line that is not digits followed only by white space is kept with its LF |
| Subtitles.NotAnIndexLine | app.js:512 | no index line starts at such a line |
| Subtitles.CopyLineTail | app.js:512 | away from a line start, nothing is removed up to the next LF |
| Subtitles.NoNewlineKept | app.js:512 | text without LF loses nothing |
| Subtitles.ConvertTimestamps | app.js:514 | the conversion keeps the length |
| Subtitles.OnlyStampCommasConverted | app.js:513-514 | the only changes are commas of `dd:dd:dd,ddd` timestamps, each to a dot |
| Subtitles.StampConverted | app.js:514 | an SRT timestamp is rewritten with a dot and the scan continues after it |
| Subtitles.PlainTextCopied | app.js:514 | text without digits is copied unchanged |
| Subtitles.TimingLineConverted | app.js:514 | an SRT timing line `a --> b` becomes the WebVTT timing line |
| Subtitles.ConvertLine | app.js:514 | no timestamp spans an LF: a line followed by an LF converts on its own, and the scan resumes at the next line |
| Subtitles.ConvertLines | app.js:514 | the conversion of LF-joined lines is the lines converted one by one |
| Subtitles.TimingLineAlone | app.js:514 | an SRT timing line on its own becomes the WebVTT timing line |
| Subtitles.EveryTimingLineConverted | app.js:513-514 | in text of any number of lines, every SRT timing line comes out as the WebVTT timing line at the same line number, whatever the other lines hold |
| Subtitles.SrtToVtt | app.js:506-517 | the output starts with `WEBVTT` and a blank line; the body after it (`Body`: trim, normalise line ends, remove cue indices, convert timestamps, trim) holds no CR and has no white space at either end |
| Subtitles.BodyHasNoCarriageReturn | app.js:508-515 | no CR survives the passes |
| Subtitles.CueTextUntouched | app.js:512-514 | one line of cue text without commas passes the removal and conversion unchanged |
| Subtitles.SingleCueConverted | app.js:506-517 | a one-cue CRLF file (index, timing line, text) converts to the header, the timing line with dots, and the text |
| Chapters.SplitBlocks | app.js:780 | at least one block; no block holds a blank line; the first block is a prefix of the text |
| Chapters.SplitOfJoinBlocks | app.js:780 | well-formed blocks joined by blank lines split back into the same blocks |
| Chapters.SplitSingleBlock | app.js:780 | text without a blank line is one block |
| Chapters.FindTimingLine | app.js:786 | the first line containing ` --> `, or none exactly when no line does |
| Chapters.ParsedChapterShape | app.js:782-797 | `ParseBlock`, through `ParseLines` on the lines of the trimmed block: a chapter comes from a block of at least two lines, one of them a timing line, and its title is non-empty, trimmed and does not start with `WEBVTT` |
| Chapters.OneLineBlockSkipped | app.js:783-784 | a one-line block (the header, a lone note) yields nothing |
| Chapters.TimingLineStart | app.js:789 | the text before the first arrow of a timing line is its start stamp |
| Chapters.ChapterBlockParsed | app.js:782-797 | a block `stamp --> end` / `title` yields the chapter starting at the stamp's time with that title |
| Chapters.LongChapterBlockParsed | app.js:782-808 | a block starting `h:mm:ss.fff` yields a chapter starting that many milliseconds in |
| Chapters.Collect | app.js:778-800 | no more chapters than blocks |
| Chapters.CollectAppend | app.js:782-798 | the chapters of two runs of blocks are those of each, in order |
| Chapters.CollectStep | app.js:782-798 | one more block adds the chapter it yields, if any |
| Chapters.CollectEveryBlock | app.js:782-798 | when every block yields a chapter, the i-th chapter comes from the i-th block |
| Chapters.ParseVttChapters | app.js:778-800 | the loop yields one chapter for each block that yields one, in block order |
| Chapters.LastStarted | app.js:813-817 | the last chapter in list order whose start has passed; none exactly when none has |
| Chapters.CurrentIndex | app.js:813-817 | the chapter named is a valid index |
| Chapters.SelectionMonotone | app.js:813-817 | time moving forward never moves the selection back |
| Chapters.SortedSelection | app.js:813-817 | with starts in order, the chapter named is the one whose span holds the current time |
| Chapters.BeforeEveryStart | app.js:813-817 | before the first start the first chapter is named |
| Player.NormalizePath | app.js:725 | same length; no backslash and no ASCII capital is left; each backslash becomes `/`, each ASCII capital its lower-case letter, the Kelvin sign `k`, and every other character is kept |
| Player.NormalizePathIdempotent | app.js:725 | normalising twice is normalising once |
| Player.SamePathAcrossSeparatorsAndCase | app.js:725-727 | paths that differ only in separators and ASCII case compare equal |
| Player.FindPathIndex | app.js:726-728 | the first file that compares equal to the path, or -1 exactly when none does |
| Player.LastSeparator | app.js:721 | the last `/` or `\`, or none exactly when there is none |
| Player.DirectoryOfJoin | app.js:721 | `DirectoryOf`: the folder of `dir/name` (either separator) is `dir` |
| Player.LastSeparatorOf | app.js:721 | the last separator of `dir/name` is the one before the name |
| Player.DirectoryOfUnsplittable | app.js:721 | a path with no separator, or ending in one, is left as it is |
| Player.NextIndex | app.js:740 | the next index is in range, one on from any but the last file, and 0 exactly after the last |
| Player.EndedAgreesWithNext | app.js:738-748 | `EndedIndex`: `onVideoEnded` moves where `nextVideo` does, except from the last file, where `nextVideo` wraps to 0 and `onVideoEnded` stops |
| Player.Advance | app.js:740 | repeated `nextVideo` stays within the playlist |
| Player.AdvanceWithin | app.js:740 | before the end each step moves one file on |
| Player.AdvanceCompose | app.js:740 | a steps then b steps is a + b steps |
| Player.AdvanceVisitsEvery | app.js:738-748 | repeated `nextVideo` reaches every file of the playlist |
| Player.AdvanceReturns | app.js:738-748 | as many steps as there are files lead back to the start |
| Player.LoadedFileFound | app.js:718-735 | after building, the index is -1 or names a file equal to the loaded one up to separators and case, and it is -1 exactly when none is |
| Player.VisionLumina.constructor | app.js:62-104 | empty playlist, index -1, no video, not playing, no chapters |
| Player.VisionLumina.BuildPlaylist | app.js:718-736 | playlist and index (`PlaylistAfter`, `IndexAfter`) are the listing of the folder and the loaded file's position in it; on failure, the file alone at index 0 |
| Player.VisionLumina.LoadVideoFile | app.js:693-716 | an empty path changes nothing; otherwise the file becomes current from time 0 and the playlist is rebuilt from its folder |
| Player.VisionLumina.NextVideo | app.js:738-748 | with more than one file and a known position, load the next file with wrap-around; otherwise restart, asking to play when it was playing |
| Player.VisionLumina.OnVideoEnded | app.js:1153-1169 | playback stops; play is asked for exactly when there is a next file without wrapping, which is then loaded; otherwise, or when the next entry is empty, the playlist, index, path and time are unchanged |
| Player.VisionLumina.UpdateCurrentChapter | app.js:810-821 | no chapters: label unchanged; otherwise the label is the title of the last chapter started, or the first chapter's |
| Library.AddDir | app.js:1646-1650 | the folder is present afterwards, nothing else is added, and the list grows by at most one |
| Library.Without | app.js:1879 | the folder is absent afterwards and every other folder is kept |
| Library.AddKeepsNoDuplicates | app.js:1646-1650 | adding keeps the list duplicate-free |
| Library.AddAppends | app.js:1646-1650 | a listed folder changes nothing; a new one goes at the end, the others keeping their places |
| Library.WithoutCounts | app.js:1879 | removal drops every copy of the folder and keeps every other folder with its number of occurrences |
| Library.WithoutDistributes | app.js:1879 | removal keeps order: removing from a concatenation removes from each part |
| Library.WithoutAbsent | app.js:1879 | removing a folder that is not listed changes nothing |
| Library.WithoutKeepsNoDuplicates | app.js:1879 | removal keeps the list duplicate-free |
| Library.RemoveUndoesAdd | app.js:1646-1650 | removing a folder just added restores the list |
| Library.HomeLibrary.constructor | app.js:1605-1608 | the list starts as the stored list, or empty when nothing usable is stored |
| Library.HomeLibrary.PromptAddFolder | app.js:1640-1656 | a new folder chosen in the dialog is appended and stored; cancelling, an empty choice or a listed folder changes nothing; duplicate-freedom is kept |
| Library.HomeLibrary.RemoveDir | app.js:1878-1882 | every copy of the folder goes, the rest keep their order, the list is stored, duplicate-freedom is kept |
| Launcher.Scanned | main.js:65 | the part of the path `extname` scans is the path, or on Windows the path after a drive |
| Launcher.StripTrailing | main.js:65 | a prefix ending in no separator, followed only by separators |
| Launcher.LastSegment | main.js:65 | the final component holds no separator |
| Launcher.LastDot | main.js:65 | the last dot, or none exactly when there is none |
| Launcher.ExtName | main.js:65 | empty, or a dot followed by characters that are neither dots nor separators, within the last component |
| Launcher.ExtNameOfFileName | main.js:65 | the extension of `dir + stem + ext` is `ext` for a proper extension and a non-empty stem |
| Launcher.BaseName | main.js:65 | the last component holds no separator |
| Launcher.BaseNameOfFile | main.js:65 | the last component of `dir + name` is `name`, for any non-empty name without separators |
| Launcher.VideoFileByName | main.js:59-67 | `IsVideoFile` (`isVideoFile`): for a proper file name, being a video file is decided by the lower-cased extension alone, whatever the folder |
| Launcher.NoExtensionRejected | main.js:59-67 | a name without a dot, or whose only dot starts it, has no extension and is not a video file |
| Launcher.UpperCaseExtensionAccepted | main.js:59-67 | `CLIP.MKV` is a video file |
| Launcher.WindowsPathAccepted | main.js:59-67 | `C:\Films\CLIP.MKV` is a video file on Windows |
| Launcher.FinalExtensionOnly | main.js:59-67 | `a.mkv.txt` is not a video file |
| Launcher.DotFileRejected | main.js:59-67 | `/videos/.mkv` is a hidden file, not a video file |
| Launcher.FirstAccepted | main.js:50-55 | the first argument passing the test, or none exactly when none does |
| Launcher.FirstAcceptedIsFirst | main.js:50-55 | an accepted argument with none accepted before it is the one found |
| Launcher.LaterArgumentsIgnored | main.js:53 | once an argument is accepted, later arguments do not matter |
| Launcher.SearchContinues | main.js:50-55 | with nothing accepted so far, the search goes on into the later arguments |
| Launcher.FindVideoArgument | main.js:47-55 | the loop returns the first position after the program whose argument passes the test, or none exactly when none does |
| Launcher.ArgumentFound | main.js:47-55 | what the loop returns agrees with the first accepted argument |
| Launcher.MainProcess.constructor | main.js:6 | no video path to start with |
| Launcher.MainProcess.HandleCommandLineArgs | main.js:46-56 | the first existing video file among the arguments, made absolute, becomes the path; with none, the path is unchanged |
| Launcher.MainProcess.OnSecondInstance | main.js:109-129 | the same choice over the second command line; if the window is open, the path is sent when there is a non-empty one |
| Launcher.MainProcess.OnOpenFile | main.js:89-101 | a video file becomes the path as given and is sent to the open window, or a window is created; any other file changes nothing |

## Left out

- I/O and inter-process calls are parameters. These are the directory listing (`get-directory-files`), the folder dialog, `fs.existsSync`, `path.resolve` and `localStorage`. A listing call that throws is `None`.
- The DOM, rendering, thumbnails, console output, `document.title`, the video element's `src`, `handleUserActivity`, controls and icons are not modelled.
- `play()` and the 500 ms timer after `onVideoEnded` become the `playRequested` result.
- `clearSubtitles` and the subtitle track are not modelled.
- Window creation, `restore` and `focus` become the `windowOpen` flag and the `createWindow` result.
- The path sent once a new window has finished loading (main.js:38-41) is not part of this model.
- Asynchrony: `nextVideo` and `onVideoEnded` start a load without waiting for it (only `loadVideoFile`'s own call to `buildPlaylist` is awaited); the model runs each load to completion before returning, so overlapping loads are not modelled.
- `showChapterMenu` (reading the `.chapters.vtt` file) is not modelled; the chapter list is a field that `parseVttChapters` output can be assigned to.
- Times are whole milliseconds, and negative times do not occur. In `parseVttTime` each colon field's fraction is cut to thousandths before the field is scaled (`Timecode.FieldsTime`), where the source multiplies the exact values: a seconds field loses less than a millisecond, but an hours or minutes field with more than three fraction digits loses up to 3.6 s or 60 ms (`0.0001:00:00` is 0.36 s in the source and 0 here). `formatTime` of a fractional second below one millisecond prints `0:00` in both.
- Timecode.ParseNumber: `Number` is modelled for unsigned decimals with an optional fraction, after trimming white space, and for the empty string. Signs, exponents, hexadecimal and `Infinity` read as `NaN` here, while JavaScript accepts them.
- Text.LowerChar, Text.Lower: `toLowerCase` is exact for ASCII and the Kelvin sign. Other non-ASCII characters are left as they are. Their lower case is not ASCII, so this cannot change whether an extension is one of the listed ones.
- Player.NormalizePath: since non-ASCII capitals are not lower-cased, paths that differ only in the case of non-ASCII letters (`C:\Видео\КЛИП.mkv` and `C:\Видео\клип.mkv`) compare equal in the source but not here; for such a path `buildPlaylist` finds its index in the source, while the model gives -1.
- `formatTime(video.duration || 0)` for a live stream whose duration is `Infinity` (app.js:1079) is not modelled, since times here are finite.
- Launcher.ExtName: Node's `path.extname` is modelled for the POSIX and Windows algorithms with a drive prefix. UNC-specific prefixes on Windows are treated as ordinary separators.
- Library.HomeLibrary.constructor: stored text that is valid JSON but not an array of strings is not modelled. Storage is `Some(list)` or `None`.
- Falsy checks (`!filePath`, `if (videoFilePath)`) are modelled for the empty string and the absent value only.
