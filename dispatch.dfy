/**
 * `on_message` (matrix-b0t.py lines 77-85): decides, for one room event, whether
 * the bot calls a webhook and which one. The HTTP call itself (`trigger_webhook`)
 * is represented by the `Trigger` outcome carrying the URL it would post to.
 */
module Dispatch {
  import opened Text
  import Config
  import Wrappers

  /** A room event as the listener receives it: its sender and its `content` object. */
  datatype Event = Event(sender: string, content: map<string, string>)

  /** What handling one event amounts to. */
  datatype Handling =
    | Ignored                          // no webhook is called
    | Trigger(url: string)             // exactly one webhook call, to `url`
    | MissingField(key: string)        // `KeyError` reading the event content
    | UnknownCommand(command: string)  // `KeyError` at `commands[command]`, line 85

  /** The message kind that line 78 accepts. */
  const TextMessage: string := "m.text"

  /** Line 82: drop exactly `|prefix|` characters, with no trimming. */
  function CommandOf(body: string, prefix: string): (command: string)
    requires StartsWith(body, prefix)
    ensures prefix + command == body
    ensures |command| == |body| - |prefix|
  {
    body[|prefix|..]
  }

  /** The four conditions of lines 78-84, read off the event independently of `OnMessage`. */
  predicate Authorized(event: Event, prefix: string, userCommands: map<string, seq<string>>)
  {
    && "msgtype" in event.content && event.content["msgtype"] == TextMessage
    && "body" in event.content
    && var body := event.content["body"];
       && StartsWith(body, prefix)
       && event.sender in userCommands
       && body[|prefix|..] in userCommands[event.sender]
  }

  /** `on_message`: the nested checks of lines 78-84 and the lookup of line 85. */
  function OnMessage(event: Event, prefix: string, userCommands: map<string, seq<string>>,
                     commands: map<string, string>): (r: Handling)
    // A webhook is called only when every check passes, and then with the command's URL.
    ensures r.Trigger? <==>
              Authorized(event, prefix, userCommands) && event.content["body"][|prefix|..] in commands
    ensures r.Trigger? ==> r.url == commands[event.content["body"][|prefix|..]]
    // An authorized command missing from the webhook table is an uncaught lookup error.
    ensures r.UnknownCommand? <==>
              Authorized(event, prefix, userCommands) && event.content["body"][|prefix|..] !in commands
    ensures r.UnknownCommand? ==> prefix + r.command == event.content["body"]
    // Reading the event content fails only on a missing `msgtype`, or a missing `body` of a text message.
    ensures r.MissingField? <==>
              "msgtype" !in event.content
              || (event.content["msgtype"] == TextMessage && "body" !in event.content)
  {
    var content := event.content;
    if "msgtype" !in content then MissingField("msgtype")
    else if content["msgtype"] != TextMessage then Ignored
    else if "body" !in content then MissingField("body")
    else
      var body := content["body"];
      if !StartsWith(body, prefix) then Ignored
      else
        var command := CommandOf(body, prefix);
        if event.sender !in userCommands then Ignored
        else if command !in userCommands[event.sender] then Ignored
        else if command !in commands then UnknownCommand(command)
        else Trigger(commands[command])
  }

  /**
   * Each check on its own suppresses the call: a non-text message, a body without
   * the prefix, an unknown sender, or a command not in the sender's list.
   */
  lemma EachCheckIsNecessary(event: Event, prefix: string, userCommands: map<string, seq<string>>,
                             commands: map<string, string>)
    requires "msgtype" in event.content && "body" in event.content
    ensures event.content["msgtype"] != TextMessage ==>
              OnMessage(event, prefix, userCommands, commands) == Ignored
    ensures !StartsWith(event.content["body"], prefix) ==>
              !OnMessage(event, prefix, userCommands, commands).Trigger?
    ensures event.sender !in userCommands ==>
              !OnMessage(event, prefix, userCommands, commands).Trigger?
    ensures event.sender in userCommands && StartsWith(event.content["body"], prefix)
            && CommandOf(event.content["body"], prefix) !in userCommands[event.sender] ==>
              !OnMessage(event, prefix, userCommands, commands).Trigger?
  {
  }

  /**
   * A command permitted to some other sender, and present in the webhook table,
   * still calls nothing for a sender whose list lacks it.
   */
  lemma PermissionIsPerSender(body: string, prefix: string, alice: string, bob: string,
                              userCommands: map<string, seq<string>>, commands: map<string, string>)
    requires StartsWith(body, prefix)
    requires alice in userCommands && CommandOf(body, prefix) in userCommands[alice]
    requires CommandOf(body, prefix) in commands
    requires bob in userCommands && CommandOf(body, prefix) !in userCommands[bob]
    ensures var content := map["msgtype" := TextMessage, "body" := body];
            && OnMessage(Event(alice, content), prefix, userCommands, commands)
               == Trigger(commands[CommandOf(body, prefix)])
            && OnMessage(Event(bob, content), prefix, userCommands, commands) == Ignored
  {
  }

  /** The configuration of the scenario below: default prefix, `alice = deploy`. */
  function ScenarioIni(alice: string, url: string): Config.Ini {
    map["Matrix" := map["server_url" := "https://m.example", "room_id" := "!r:m.example",
                        "username" := "b0t", "password" := "secret", "token" := ""],
        "Users" := map[alice := "deploy"],
        "Webhooks" := map["deploy" := url]]
  }

  /** The scenario's configuration loads with prefix `!b0t` and `alice` allowed `deploy`. */
  lemma ScenarioSettings(alice: string, url: string)
    ensures Config.LoadSettings(ScenarioIni(alice, url)) ==
              Wrappers.Success(Config.Settings(map[alice := ["deploy"]], map["deploy" := url],
                "https://m.example", "b0t", "secret", "", "!r:m.example", Config.DefaultPrefix))
  {
    var ini := ScenarioIni(alice, url);
    var m := ini["Matrix"];
    assert Config.Loadable(ini);
    assert Config.Prefix(m) == Config.DefaultPrefix by {
      assert "command_prefix" !in m;
    }
    assert Config.UserCommands(ini["Users"]) == map[alice := ["deploy"]] by {
      SplitNoSeparator("deploy", ',');
    }
  }

  /**
   * With the default prefix and `alice = deploy` under Users (the tables that
   * `ScenarioSettings` loads), the message `!b0t deploy` yields the command
   * ` deploy`, leading space kept, and calls nothing, while `!b0tdeploy` calls
   * the `deploy` webhook once.
   */
  lemma DefaultPrefixKeepsSpace(alice: string, url: string)
    ensures CommandOf("!b0t deploy", Config.DefaultPrefix) == " deploy"
    ensures OnMessage(Event(alice, map["msgtype" := "m.text", "body" := "!b0t deploy"]),
                      Config.DefaultPrefix, map[alice := ["deploy"]], map["deploy" := url]) == Ignored
    ensures OnMessage(Event(alice, map["msgtype" := "m.text", "body" := "!b0tdeploy"]),
                      Config.DefaultPrefix, map[alice := ["deploy"]], map["deploy" := url]) == Trigger(url)
  {
    assert StartsWith("!b0t deploy", "!b0t") && "!b0t deploy"[4..] == " deploy";
    assert " deploy" !in ["deploy"];
    assert StartsWith("!b0tdeploy", "!b0t") && "!b0tdeploy"[4..] == "deploy";
  }
}
