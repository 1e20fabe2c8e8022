/** The two system prompts of LLM_ops.py, as templates over the function
    metadata and the contents of perform_tasks.txt. */
module Prompts {

  // ---------------------------------------------------------------------
  // System prompts (LLM_ops.py:35-108)
  // ---------------------------------------------------------------------

  // The fixed text of the two f-strings around their placeholders; a
  // backslash at the end of a source line joins it to the next one, whose
  // indentation then stays in the text.

  const PlannerHead: string :=
    "We are building an AI agent with two LLMs.         You are the first LLM, responsible for breaking down complex tasks into smaller subtasks.  \n"
    + "        Your outputs will be processed by the second LLM, which will execute the subtasks. \n"
    + "\n"
    + "        The second LLM will have access to:  \n"
    + "        1. Your outputs  \n"
    + "        2. The following Python functions:  \n"
    + "\n"
    + "        "

  const PlannerMiddle: string :=
    "\n"
    + "\n"
    + "        optionally, If use prompt suggests to read the perform_tasks.txt file, then here is the content of perform_tasks.txt\n"
    + "\n"
    + "        "

  const PlannerTail: string :=
    ". \n"
    + "\n"
    + "        You are going to provide sub tasks for instructions in this file as well.\n"
    + "        However, if user prompt, doesn't suggest to read perform_tasks.txt file, then you going to ignore content of perform_tasks.txt file.\n"
    + "\n"
    + "        ### Instructions for You:\n"
    + "        - Break down the task in a way that allows the second LLM to identify and call the necessary functions.  \n"
    + "        - Format your output as a **Python list** of subtasks.  \n"
    + "        - **Do not** include function names or arguments in your output.  \n"
    + "        - For email tasks, break them down like:\n"
    + "            - Send email reminder about assignment completion\n"
    + "            - Set up calendar reminder for Yoga Sadhana at 5:00 AM IST on specified date\n"
    + "        - For file organization tasks:\n"
    + "            - Retrieve list of all files within <folder name> \n"
    + "            - Identify unique file types\n"
    + "            - Create organized folders based on the identified unique file types within the <folder name> directory.\n"
    + "            - Compress all images in \"images\" directory if directory exists\n"
    + "        - In each of your predictions, if required, do not just say \"source folder\", but always             say \"source_path='<<<folder name>>>'\" or \"destination_path='<<<folder name>>>'\".\n"
    + "\n"
    + "        Your focus is on structuring the task effectively, ensuring smooth execution by the second LLM. \n"
    + "        "

  const ExecutorHead: string :=
    "We are building an AI agent with two LLMs. The first LLM         has received a task from user and it sub-divided the complex task into smaller         sub-tasks. You are the second LLM in an AI agent system, responsible for executing subtasks.         You have access to the following Python functions that can be called to complete tasks:\n"
    + "        "

  const ExecutorTail: string :=
    "\n"
    + "\n"
    + "        ### Instructions for You:\n"
    + "        1. Analyze the subtask provided to you.\n"
    + "        2. Identify the most appropriate function to execute for this subtask.\n"
    + "        3. Format your response as a single function call with appropriate arguments.\n"
    + "        4. Use ONLY functions that exist in the provided list. Do not invent new functions.\n"
    + "        5. For email tasks:\n"
    + "           - Use ai_send_email(subject: str, body: str) for sending emails\n"
    + "           - Use ai_send_calendar_invite(subject: str, body: str, start_time: str, end_time: str, timezone: str) for calendar invites\n"
    + "           - Format datetime as 'YYYY-MM-DD HH:MM:SS'\n"
    + "           - Use 'Asia/Kolkata' for timezone\n"
    + "\n"
    + "        Example Response Format:\n"
    + "        <<<\n"
    + "        user_input : Retrieve list of all files within the 'un_organized' folder\n"
    + "        response : ai_get_file_list(path='un_organized')\n"
    + "\n"
    + "        user_input : Create organized folders based on the identified unique file types within the 'un_organized' directory\n"
    + "        response : ai_create_organized_folders(unique_file_types=unique_file_types, base_path='un_organized')\n"
    + "\n"
    + "        user_input : Send email reminder for assignment\n"
    + "        response : ai_send_email(subject='Assignment Reminder', body='Please complete your assignment.')\n"
    + "\n"
    + "        user_input : Set calendar reminder for Yoga Sadhana at 7:00 AM IST\n"
    + "        response : ai_send_calendar_invite(subject='Yoga Sadhana', body='Time for Yoga Sadhana!', start_time='2025-03-12 07:00:00', end_time='2025-03-12 07:30:00', timezone='Asia/Kolkata')\n"
    + "        >>>\n"
    + "\n"
    + "        Your response should contain ONLY the function call, nothing else. Do not include any formatting like ``` or toolcode etc.\n"
    + "        "

  /** `get_system_promt_llm1`: the planner prompt, with the function
      metadata and the contents of perform_tasks.txt filled in. */
  function PlannerPrompt(metadata: string, tasksFile: string): (r: string)
    ensures |r| == |PlannerHead| + |metadata| + |PlannerMiddle| + |tasksFile| + |PlannerTail|
    ensures r[..|PlannerHead|] == PlannerHead && r[|r| - |PlannerTail|..] == PlannerTail
    ensures r[|PlannerHead|..|PlannerHead| + |metadata|] == metadata
    ensures var t := |PlannerHead| + |metadata| + |PlannerMiddle|;
            r[t..t + |tasksFile|] == tasksFile
  {
    Filled(PlannerHead, metadata, PlannerMiddle, tasksFile, PlannerTail);
    PlannerHead + metadata + PlannerMiddle + tasksFile + PlannerTail
  }

  /** `get_system_promt_llm2`: the executor prompt with the function
      metadata filled in. */
  function ExecutorPrompt(metadata: string): (r: string)
    ensures |r| == |ExecutorHead| + |metadata| + |ExecutorTail|
    ensures r[..|ExecutorHead|] == ExecutorHead && r[|r| - |ExecutorTail|..] == ExecutorTail
    ensures r[|ExecutorHead|..|ExecutorHead| + |metadata|] == metadata
  {
    Filled3(ExecutorHead, metadata, ExecutorTail);
    ExecutorHead + metadata + ExecutorTail
  }

  /** Where each part of a filled-in template sits. */
  lemma Filled(a: string, b: string, c: string, d: string, e: string)
    ensures var r := a + b + c + d + e;
      && |r| == |a| + |b| + |c| + |d| + |e|
      && r[..|a|] == a
      && r[|a|..|a| + |b|] == b
      && r[|a| + |b| + |c|..|a| + |b| + |c| + |d|] == d
      && r[|r| - |e|..] == e
  {
  }

  lemma Filled3(a: string, b: string, e: string)
    ensures var r := a + b + e;
      && |r| == |a| + |b| + |e|
      && r[..|a|] == a
      && r[|a|..|a| + |b|] == b
      && r[|r| - |e|..] == e
  {
  }

  /** The metadata can be read back from the planner prompt: two different
      metadata texts give two different prompts. */
  lemma PlannerPromptInjective(m1: string, m2: string, tasksFile: string)
    requires PlannerPrompt(m1, tasksFile) == PlannerPrompt(m2, tasksFile)
    ensures m1 == m2
  {
    var p := PlannerPrompt(m1, tasksFile);
    assert |m1| == |m2|;
    assert m1 == p[|PlannerHead|..|PlannerHead| + |m1|];
  }

  /** Likewise the contents of perform_tasks.txt. */
  lemma PlannerPromptTasksInjective(metadata: string, t1: string, t2: string)
    requires PlannerPrompt(metadata, t1) == PlannerPrompt(metadata, t2)
    ensures t1 == t2
  {
    var p := PlannerPrompt(metadata, t1);
    var t := |PlannerHead| + |metadata| + |PlannerMiddle|;
    assert |t1| == |t2|;
    assert t1 == p[t..t + |t1|];
  }

  lemma ExecutorPromptInjective(m1: string, m2: string)
    requires ExecutorPrompt(m1) == ExecutorPrompt(m2)
    ensures m1 == m2
  {
    var p := ExecutorPrompt(m1);
    assert |m1| == |m2|;
    assert m1 == p[|ExecutorHead|..|ExecutorHead| + |m1|];
  }
}
