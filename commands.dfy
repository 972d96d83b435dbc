/**
 * The chat commands' own logic: configuration checks, the download file
 * name, model selection by number, the list replies, and `/播放豆包`
 * (play a stored video by id or by name).
 */
module Commands {
  import opened Wrappers
  import opened Text
  import opened Catalog
  import opened Delivery

  // ---------------------------------------------------------------- config

  /** Configured values; `None` where the key is not configured. */
  datatype Config = Config(
    apiKey: Option<string>,
    apiBase: Option<string>,
    modelId: Option<string>,
    maxWaitTime: Option<int>)

  datatype Validation = Validation(valid: bool, warnings: seq<string>, errors: seq<string>)

  const NoKeyWarning: string := "未配置API密钥，将无法生成视频"
  const ShortKeyError: string := "API密钥长度异常，可能配置错误"
  const BaseFormatError: string := "API基础地址格式错误，必须以http或https开头"
  const NoModelError: string := "未配置模型ID"
  const ShortWaitWarning: string := "最大等待时间过短，可能导致视频生成未完成就超时"

  /** The position of an error in the order the checks are made. */
  function ErrorRank(e: string): int {
    if e == ShortKeyError then 0 else if e == BaseFormatError then 1 else 2
  }

  /**
   * `_validate_config`. Its defaults: no key, no base, no model and a
   * 600 s wait. A missing key only warns; a short key, a base not starting
   * with `http` and a missing model are errors, in that order.
   */
  function ValidateConfig(cfg: Config): (v: Validation)
    ensures var key, base, model := cfg.apiKey.GetOr(""), cfg.apiBase.GetOr(""), cfg.modelId.GetOr("");
      && (v.valid <==> v.errors == [])
      && (v.valid <==> (key == "" || |key| >= 10) && (base == "" || "http" <= base) && model != "")
      && (ShortKeyError in v.errors <==> key != "" && |key| < 10)
      && (BaseFormatError in v.errors <==> base != "" && !("http" <= base))
      && (NoModelError in v.errors <==> model == "")
      && (NoKeyWarning in v.warnings <==> key == "")
      && (ShortWaitWarning in v.warnings <==> cfg.maxWaitTime.GetOr(600) < 60)
      && |v.errors| <= 3 && |v.warnings| <= 2
    ensures forall e :: e in v.errors ==> e in {ShortKeyError, BaseFormatError, NoModelError}
    ensures forall w :: w in v.warnings ==> w in {NoKeyWarning, ShortWaitWarning}
    ensures forall i, j :: 0 <= i < j < |v.errors| ==> ErrorRank(v.errors[i]) < ErrorRank(v.errors[j])
    ensures |v.warnings| == 2 ==> v.warnings == [NoKeyWarning, ShortWaitWarning]
  {
    var key := cfg.apiKey.GetOr("");
    var keyWarning := key == "";
    var keyError := key != "" && |key| < 10;
    var base := cfg.apiBase.GetOr("");
    var baseError := base != "" && !("http" <= base);
    var model := cfg.modelId.GetOr("");
    var modelError := model == "";
    var waitWarning := cfg.maxWaitTime.GetOr(600) < 60;
    ErrorListShape(keyError, baseError, modelError);
    WarningListShape(keyWarning, waitWarning);
    var valid := !keyError && !baseError && !modelError;
    Validation(valid, Flagged(keyWarning, NoKeyWarning) + Flagged(waitWarning, ShortWaitWarning),
      Flagged(keyError, ShortKeyError) + Flagged(baseError, BaseFormatError) + Flagged(modelError, NoModelError))
  }

  /** `[message]` when the check fires, else nothing: one `append` of `_validate_config`. */
  function Flagged(fires: bool, message: string): seq<string> {
    if fires then [message] else []
  }

  /** The error list holds exactly the errors that fire, each once, in the order of the checks. */
  lemma ErrorListShape(keyError: bool, baseError: bool, modelError: bool)
    ensures var errs := Flagged(keyError, ShortKeyError) + Flagged(baseError, BaseFormatError) + Flagged(modelError, NoModelError);
      && (errs == [] <==> !keyError && !baseError && !modelError)
      && (ShortKeyError in errs <==> keyError)
      && (BaseFormatError in errs <==> baseError)
      && (NoModelError in errs <==> modelError)
      && |errs| <= 3
      && (forall e :: e in errs ==> e in {ShortKeyError, BaseFormatError, NoModelError})
      && (forall i, j :: 0 <= i < j < |errs| ==> ErrorRank(errs[i]) < ErrorRank(errs[j]))
  {
    MessagesDistinct();
  }

  /** The warning list holds exactly the warnings that fire, the key warning first. */
  lemma WarningListShape(keyWarning: bool, waitWarning: bool)
    ensures var warns := Flagged(keyWarning, NoKeyWarning) + Flagged(waitWarning, ShortWaitWarning);
      && (NoKeyWarning in warns <==> keyWarning)
      && (ShortWaitWarning in warns <==> waitWarning)
      && |warns| <= 2
      && (forall w :: w in warns ==> w in {NoKeyWarning, ShortWaitWarning})
      && (|warns| == 2 ==> warns == [NoKeyWarning, ShortWaitWarning])
  {
    MessagesDistinct();
  }

  lemma MessagesDistinct()
    ensures ShortKeyError != BaseFormatError && ShortKeyError != NoModelError && BaseFormatError != NoModelError
    ensures NoKeyWarning != ShortWaitWarning
  {
    assert ShortKeyError[3] != BaseFormatError[3];
    assert ShortKeyError[0] != NoModelError[0];
    assert BaseFormatError[0] != NoModelError[0];
    assert NoKeyWarning[0] != ShortWaitWarning[0];
  }

  // ------------------------------------------------------------- file name

  /** The characters `re.sub(r'[\\/:*?"<>|]', '_', ...)` replaces. */
  const ForbiddenFilenameChars: set<char> := {'\\', '/', ':', '*', '?', '"', '<', '>', '|'}

  function ReplaceForbidden(s: string): (r: string)
    ensures |r| == |s|
    ensures forall i :: 0 <= i < |s| ==> r[i] == if s[i] in ForbiddenFilenameChars then '_' else s[i]
    decreases |s|
  {
    if s == [] then []
    else [if s[0] in ForbiddenFilenameChars then '_' else s[0]] + ReplaceForbidden(s[1..])
  }

  /** The prompt part of the download's original file name: its first 20 characters, made safe. */
  function SafePrompt(prompt: string): (r: string)
    ensures prompt == "" ==> r == "video"
    ensures prompt != "" ==> |r| == (if |prompt| < 20 then |prompt| else 20)
    ensures prompt != "" ==> forall i :: 0 <= i < |r| ==>
      r[i] == if prompt[i] in ForbiddenFilenameChars then '_' else prompt[i]
    ensures forall i :: 0 <= i < |r| ==> r[i] !in ForbiddenFilenameChars
  {
    if prompt == "" then "video"
    else ReplaceForbidden(if |prompt| <= 20 then prompt else prompt[..20])
  }

  /** `豆包_{safe_prompt}_{timestamp}.mp4`. */
  function OriginalFilename(prompt: string, timestamp: int): (name: string)
    ensures "豆包_" + SafePrompt(prompt) + "_" <= name
    ensures EndsWith(name, ".mp4")
    ensures var head := "豆包_" + SafePrompt(prompt) + "_";
      && |head| + 4 <= |name|
      && name[|head|..|name| - 4] == IntToString(timestamp)
      && ParseInt(name[|head|..|name| - 4]) == Some(timestamp)
  {
    var head := "豆包_" + SafePrompt(prompt) + "_";
    var name := head + IntToString(timestamp) + ".mp4";
    assert name[..|head|] == head;
    assert name[|head|..|name| - 4] == IntToString(timestamp);
    ParseIntOfIntToString(timestamp);
    name
  }

  predicate IsSafeName(s: string) {
    forall i :: 0 <= i < |s| ==> s[i] !in ForbiddenFilenameChars
  }

  lemma SafeConcat(a: string, b: string)
    requires IsSafeName(a) && IsSafeName(b)
    ensures IsSafeName(a + b)
  {
    forall i | 0 <= i < |a + b| ensures (a + b)[i] !in ForbiddenFilenameChars {
      if i >= |a| {
        assert (a + b)[i] == b[i - |a|];
      }
    }
  }

  lemma DigitsAreSafe(s: string)
    requires AllDigits(s)
    ensures IsSafeName(s)
  {
    forall i | 0 <= i < |s| ensures s[i] !in ForbiddenFilenameChars {
      assert IsDigit(s[i]);
    }
  }

  /** Whatever the prompt, the original file name has no separator or other forbidden character. */
  lemma OriginalFilenameIsSafe(prompt: string, timestamp: int)
    ensures IsSafeName(OriginalFilename(prompt, timestamp))
  {
    var n: nat := if timestamp < 0 then -timestamp else timestamp;
    DigitsAreSafe(NatToString(n));
    assert IsSafeName("-");
    if timestamp < 0 {
      SafeConcat("-", NatToString(n));
    }
    var head := "豆包_";
    assert IsSafeName(head);
    SafeConcat(head, SafePrompt(prompt));
    assert IsSafeName("_");
    SafeConcat(head + SafePrompt(prompt), "_");
    SafeConcat(head + SafePrompt(prompt) + "_", IntToString(timestamp));
    assert IsSafeName(".mp4");
    SafeConcat(head + SafePrompt(prompt) + "_" + IntToString(timestamp), ".mp4");
  }

  // ------------------------------------------------------- model selection

  const SupportedModels: seq<string> := [
    "doubao-seedance-1-0-pro-250528",
    "doubao-seedance-1-5-pro-251215",
    "doubao-seedance-1-0-lite-i2v-250428"]

  datatype Selection = Selected(model: string) | MissingIndex | OutOfRange | NotANumber

  /** The N-th supported model, counting from 1, for the stripped selection text. */
  function SelectIndex(text: string): (s: Selection)
    ensures s.Selected? ==> s.model in SupportedModels
    ensures s.Selected? <==> ParseInt(text).Some? && 1 <= ParseInt(text).value <= |SupportedModels|
    ensures s == MissingIndex <==> text == ""
    ensures s == NotANumber <==> text != "" && ParseInt(text).None?
    ensures s == OutOfRange <==>
      text != "" && ParseInt(text).Some? && !(1 <= ParseInt(text).value <= |SupportedModels|)
  {
    ParseIntOfEmpty();
    if text == "" then MissingIndex
    else
      match ParseInt(text)
      case None => NotANumber
      case Some(n) =>
        var index := n - 1;
        if 0 <= index < |SupportedModels| then Selected(SupportedModels[index]) else OutOfRange
  }

  /** `/选择模型 N`: the selection text is stripped first. */
  function SelectModel(modelIndex: string): (s: Selection)
    ensures s.Selected? ==> s.model in SupportedModels
    ensures s.Selected? <==> var n := ParseInt(Strip(modelIndex)); n.Some? && 1 <= n.value <= |SupportedModels|
    ensures s == MissingIndex <==> Strip(modelIndex) == ""
    ensures s == NotANumber <==> Strip(modelIndex) != "" && ParseInt(Strip(modelIndex)).None?
    ensures s == OutOfRange <==> var n := ParseInt(Strip(modelIndex));
      Strip(modelIndex) != "" && n.Some? && !(1 <= n.value <= |SupportedModels|)
  {
    SelectIndex(Strip(modelIndex))
  }

  /** The reply that says what the selection did. */
  function SelectionReply(s: Selection): (reply: string)
    ensures reply != [] && (reply[0] == '✅' <==> s.Selected?)
    ensures s.Selected? ==> EndsWith(reply, s.model)
    ensures s.OutOfRange? || s.NotANumber? ==> EndsWith(reply, "1-" + IntToString(|SupportedModels|))
  {
    match s
    case Selected(m) => "✅ 已选择模型: " + m
    case MissingIndex => "❌ 请输入要选择的模型编号，例如：/选择模型 1"
    case OutOfRange => "❌ 无效的模型编号，支持的范围是1-" + IntToString(|SupportedModels|)
    case NotANumber => "❌ 请输入有效的数字编号，支持的范围是1-" + IntToString(|SupportedModels|)
  }

  /** Different outcomes of a selection get different replies. */
  lemma SelectionReplyDistinct(a: Selection, b: Selection)
    requires SelectionReply(a) == SelectionReply(b)
    ensures a == b
  {
    var ra, rb := SelectionReply(a), SelectionReply(b);
    if a.Selected? && b.Selected? {
      var head := "✅ 已选择模型: ";
      assert ra[|head|..] == a.model;
      assert rb[|head|..] == b.model;
    } else if !a.Selected? && !b.Selected? {
      assert ra[5] == rb[5];
    }
  }

  // ----------------------------------------------------------- list replies

  const ListSeparator: string := "，"
  const VideoListHeader: string := "📋 豆包视频列表\n列表: "
  const NoVideosText: string := "📁 还没有生成任何豆包视频"
  const ModelListHeader: string := "📋 支持的豆包视频生成模型\n列表: "

  /**
   * The reply loop of both list commands: each item followed by `，`, then
   * one trailing `，` removed; so the items appear joined by `，`.
   */
  method ListReply(header: string, items: seq<string>) returns (reply: string)
    ensures items != [] ==> reply == header + Join(items, ListSeparator)
    ensures items == [] ==>
      reply == if EndsWith(header, ListSeparator) then header[..|header| - 1] else header
  {
    reply := header;
    for i := 0 to |items|
      invariant reply == header + Terminated(items[..i], ListSeparator)
    {
      assert items[..i + 1][..i] == items[..i];
      reply := reply + items[i] + ListSeparator;
    }
    assert items[..|items|] == items;
    if items != [] {
      TerminatedIsJoinPlusSep(items, ListSeparator);
      assert reply == (header + Join(items, ListSeparator)) + ListSeparator;
    }
    if EndsWith(reply, ListSeparator) {
      reply := reply[..|reply| - 1];
    }
  }

  function VideoListItem(e: Entry): string {
    e.filename + ListSeparator + e.prompt
  }

  /** `/豆包视频列表`: every video as `filename，prompt`, newest first. */
  method VideoListReply(manager: MetadataManager) returns (reply: string)
    ensures manager.entries == [] ==> reply == NoVideosText
    ensures manager.entries != [] ==>
      var videos := manager.GetAllVideos();
      reply == VideoListHeader + Join(seq(|videos|, i requires 0 <= i < |videos| => VideoListItem(videos[i])), ListSeparator)
  {
    var videos := manager.GetAllVideos();
    if videos == [] {
      assert |multiset(manager.entries)| == 0;
      return NoVideosText;
    }
    assert manager.entries != [];
    var items := seq(|videos|, i requires 0 <= i < |videos| => VideoListItem(videos[i]));
    reply := ListReply(VideoListHeader, items);
  }

  /** `1. model`, `2. model`, ...: the numbered entries of `/豆包模型列表`. */
  function ModelListItems(): (items: seq<string>)
    ensures |items| == |SupportedModels|
    ensures forall i :: 0 <= i < |items| ==> IntToString(i + 1) + ". " <= items[i] && EndsWith(items[i], SupportedModels[i])
  {
    seq(|SupportedModels|, i requires 0 <= i < |SupportedModels| => IntToString(i + 1) + ". " + SupportedModels[i])
  }

  /** `/豆包模型列表`. */
  method ModelListReply() returns (reply: string)
    ensures reply == ModelListHeader + Join(ModelListItems(), ListSeparator)
  {
    reply := ListReply(ModelListHeader, ModelListItems());
  }

  /** The model list numbers its entries from 1. */
  lemma ModelListNumbering(k: int)
    requires 1 <= k <= |SupportedModels|
    ensures ModelListItems()[k - 1] == IntToString(k) + ". " + SupportedModels[k - 1]
  {
  }

  /** A number in range selects the model at that position, counting from 1. */
  lemma SelectByNumber(text: string, n: int)
    requires ParseInt(text) == Some(n) && 1 <= n <= |SupportedModels|
    ensures SelectIndex(text) == Selected(SupportedModels[n - 1])
  {
    ParseIntOfEmpty();
  }

  /** Selecting the number the model list shows beside a model selects that model. */
  lemma ListedNumberSelectsModel(k: int)
    requires 1 <= k <= |SupportedModels|
    ensures IntToString(k) + ". " <= ModelListItems()[k - 1]
    ensures SelectModel(IntToString(k)) == Selected(SupportedModels[k - 1])
  {
    ListedNumberPrefix(k);
    ListedNumberSelects(k);
  }

  lemma ListedNumberPrefix(k: int)
    requires 1 <= k <= |SupportedModels|
    ensures IntToString(k) + ". " <= ModelListItems()[k - 1]
  {
    ModelListNumbering(k);
  }

  lemma ListedNumberSelects(k: int)
    requires 1 <= k <= |SupportedModels|
    ensures SelectModel(IntToString(k)) == Selected(SupportedModels[k - 1])
  {
    StripOfNatString(k);
    ParseIntOfIntToString(k);
    StrippedNumberSelects(IntToString(k), k);
  }

  /** A selection text that stripping leaves alone and that parses to `n` selects model `n`. */
  lemma StrippedNumberSelects(text: string, n: int)
    requires Strip(text) == text && ParseInt(text) == Some(n) && 1 <= n <= |SupportedModels|
    ensures SelectModel(text) == Selected(SupportedModels[n - 1])
  {
    SelectByNumber(text, n);
  }

  lemma StripOfNatString(k: nat)
    ensures Strip(IntToString(k)) == IntToString(k)
  {
    var digits := NatToString(k);
    assert IntToString(k) == digits;
    StripDigits(digits);
  }

  // ------------------------------------------------------------ play video

  const MissingIdentifierText: string := "❌ 请输入要播放的视频编号或名称，例如：/播放豆包 1 或 /播放豆包 一只猫在草地里玩耍"
  const CannotSendText: string := "❌ 无法直接发送视频，请手动查看"
  const PlayFailedText: string := "📛 播放视频失败，请稍后重试"

  function NotFoundText(identifier: string): string { "❌ 未找到视频: '" + identifier + "'" }
  function MissingFileText(filename: string): string { "❌ 视频文件不存在: " + filename }
  function PlayingText(e: Entry): string { "📤 正在发送视频: " + e.filename + " - " + e.prompt }
  function PathText(path: string): string { "📁 视频文件路径：" + path }

  /** `os.path.join(directory, name)` on POSIX. */
  function JoinPath(directory: string, name: string): (path: string)
    ensures "/" <= name ==> path == name
    ensures !("/" <= name) ==> directory <= path && EndsWith(path, name)
    ensures !("/" <= name) && directory != "" ==> |path| > |name| && path[|path| - |name| - 1] == '/'
    ensures |path| <= |directory| + 1 + |name|
    ensures !("/" <= name) ==>
      |path| == |directory| + |name| + (if directory == "" || EndsWith(directory, "/") then 0 else 1)
  {
    if "/" <= name then name
    else if directory == "" || EndsWith(directory, "/") then directory + name
    else directory + "/" + name
  }

  /**
   * The lookup result for an identifier: an identifier `int()` accepts is
   * an id, any other a name; the first match in storage order is found.
   */
  ghost predicate IsLookupOf(entries: seq<Entry>, identifier: string, found: Option<Entry>) {
    match ParseInt(identifier)
    case Some(n) =>
      && (found.None? <==> forall i :: 0 <= i < |entries| ==> entries[i].id != n)
      && (found.Some? ==> exists i :: IsFirstWithId(entries, n, i) && entries[i] == found.value)
    case None =>
      && (found.None? <==> forall i :: 0 <= i < |entries| ==> !MatchesName(entries[i], identifier))
      && (found.Some? ==> exists i :: IsFirstWithName(entries, identifier, i) && entries[i] == found.value)
  }

  method FindVideo(manager: MetadataManager, identifier: string) returns (found: Option<Entry>)
    ensures IsLookupOf(manager.entries, identifier, found)
  {
    match ParseInt(identifier) {
      case Some(videoId) =>
        found := manager.GetVideoById(videoId);
      case None =>
        found := manager.GetVideoByName(identifier);
    }
  }

  /**
   * What sending a stored, existing file replies: Napcat first, then the
   * first host method present; without either, the path. A host call that
   * raises ends the command with the failure reply.
   */
  ghost predicate IsDeliveryOf(video: Entry, path: string, env: NapcatEnv, gateway: GatewayReply,
                         caps: HostCapabilities, hostRaises: bool, channel: Channel, replies: seq<string>) {
    var host := HostChannel(caps);
    var napcat := NapcatDelivers(env, true, gateway);
    if napcat then channel == Napcat && replies == [PlayingText(video), SentText]
    else if host.Some? && !hostRaises then channel == host.value && replies == [PlayingText(video), SentText]
    else if host.Some? then channel == TextOnly && replies == [PlayingText(video), PlayFailedText]
    else channel == TextOnly && replies == [PlayingText(video), PathText(path), CannotSendText]
  }

  method SendStoredVideo(video: Entry, path: string, env: NapcatEnv, gateway: GatewayReply,
                         caps: HostCapabilities, hostRaises: bool)
    returns (channel: Channel, replies: seq<string>)
    ensures IsDeliveryOf(video, path, env, gateway, caps, hostRaises, channel, replies)
  {
    channel := TextOnly;
    replies := [PlayingText(video)];
    var videoSent := false;
    var napcatSent, _ := SendVideoViaNapcat(env, path, true, gateway);
    if !napcatSent {
      var host := HostChannel(caps);
      if host.Some? {
        if hostRaises {
          replies := replies + [PlayFailedText];
          return;
        }
        replies := replies + [SentText];
        videoSent := true;
        channel := host.value;
      }
    } else {
      replies := replies + [SentText];
      videoSent := true;
      channel := Napcat;
    }
    if !videoSent {
      replies := replies + [PathText(path), CannotSendText];
    }
  }

  /** A delivery reports success exactly when some channel took the file. */
  lemma DeliveryOutcome(video: Entry, path: string, env: NapcatEnv, gateway: GatewayReply,
                        caps: HostCapabilities, hostRaises: bool, channel: Channel, replies: seq<string>)
    requires IsDeliveryOf(video, path, env, gateway, caps, hostRaises, channel, replies)
    ensures |replies| >= 2 && replies[0] == PlayingText(video)
    ensures channel != TextOnly <==> replies[1] == SentText
    ensures channel == Napcat <==> NapcatDelivers(env, true, gateway)
    ensures channel != TextOnly && channel != Napcat ==> Some(channel) == HostChannel(caps) && !hostRaises
    ensures channel == TextOnly ==> (PathText(path) in replies <==> HostChannel(caps).None?)
  {
    SentTextDistinct(path);
    assert PlayingText(video)[0] != PathText(path)[0];
  }

  lemma SentTextDistinct(path: string)
    ensures SentText != PlayFailedText && SentText != PathText(path)
    ensures PathText(path) != PlayFailedText && CannotSendText != PathText(path)
    ensures SentText != CannotSendText && PlayFailedText != CannotSendText
  {
    assert SentText[0] != PlayFailedText[0];
    assert SentText[0] != PathText(path)[0];
    assert PathText(path)[0] != PlayFailedText[0];
    assert PathText(path)[0] != CannotSendText[0];
    assert SentText[0] != CannotSendText[0];
    assert PlayFailedText[0] != CannotSendText[0];
  }

  /**
   * `/播放豆包 <id or name>`: look the stripped identifier up, check the
   * stored file exists (`fileExists`), then send it. `hostRaises` says the
   * host call raised. `rawIdentifier` is the `video_identifier` group, `None`
   * when the pattern's optional group took nothing: the `.strip()` of `None`
   * raises, and the command's handler answers with the failure text.
   */
  method PlayVideo(manager: MetadataManager, rawIdentifier: Option<string>, videosDir: string, fileExists: bool,
                   env: NapcatEnv, gateway: GatewayReply, caps: HostCapabilities, hostRaises: bool)
    returns (played: Option<Entry>, channel: Channel, replies: seq<string>)
    ensures rawIdentifier.None? ==> played == None && channel == TextOnly && replies == [PlayFailedText]
    ensures rawIdentifier.Some? && Strip(rawIdentifier.value) == "" ==> played == None && replies == [MissingIdentifierText]
    ensures rawIdentifier.Some? && Strip(rawIdentifier.value) != "" ==>
      IsLookupOf(manager.entries, Strip(rawIdentifier.value), played)
    ensures rawIdentifier.Some? && Strip(rawIdentifier.value) != "" && played.None? ==>
      replies == [NotFoundText(Strip(rawIdentifier.value))]
    ensures played.Some? ==> rawIdentifier.Some?
    ensures played.Some? && !fileExists ==> replies == [MissingFileText(played.value.filename)]
    ensures channel != TextOnly ==> played.Some? && fileExists
    ensures played.Some? && fileExists ==>
      IsDeliveryOf(played.value, JoinPath(videosDir, played.value.filename), env, gateway, caps, hostRaises, channel, replies)
  {
    if rawIdentifier.None? {
      return None, TextOnly, [PlayFailedText];
    }
    var identifier := Strip(rawIdentifier.value);
    if identifier == "" {
      return None, TextOnly, [MissingIdentifierText];
    }
    played := FindVideo(manager, identifier);
    if played.None? {
      return None, TextOnly, [NotFoundText(identifier)];
    }
    var video := played.value;
    var filePath := JoinPath(videosDir, video.filename);
    if !fileExists {
      return played, TextOnly, [MissingFileText(video.filename)];
    }
    channel, replies := SendStoredVideo(video, filePath, env, gateway, caps, hostRaises);
  }
}
